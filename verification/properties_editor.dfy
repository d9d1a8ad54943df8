/**
 * The administrator's side of the comments widget: the properties form that
 * edits the title, the anonymous and approval flags, the finish node and the
 * template, and the short preview of those settings.
 */
module PropertiesEditor {
  import opened Wrappers
  import opened WidgetProperties
  import opened CommentsWidget

  /** A widget instance: its properties and the template it renders with. */
  datatype Widget = Widget(props: Properties, template: string)

  /** The flat values the properties form edits. */
  datatype PropertiesData = PropertiesData(
    title: Option<string>,
    approval: bool,
    anonymous: bool,
    finish: Option<string>,
    template: string)

  /** A properties request: not submitted, or submitted with the cancel
      parameter and the validated data (None when validation failed). */
  datatype PropertiesSubmission =
    | Unsubmitted
    | Posted(cancel: bool, data: Option<PropertiesData>)

  /** The properties form view: the values it was loaded with and whether errors are attached. */
  datatype PropertiesView = PropertiesView(initial: PropertiesData, hasErrors: bool)

  /** What propertiesAction returns (true, false or null), the widget after
      it, and the view it sets when it returns null. */
  datatype PropertiesResult = PropertiesResult(returned: Option<bool>, widget: Widget, view: Option<PropertiesView>)

  const TitleLabel: string := "label.title"
  const FinishLabel: string := "label.node.finish"

  /** One labelled line of the preview; the label is a translation key. */
  datatype PreviewLine = PreviewLine(labelKey: string, value: string)

  /** The values the properties form starts from. */
  function LoadData(w: Widget, locale: string): PropertiesData {
    PropertiesData(LocalizedTitle(w.props, locale), w.props.approval, w.props.anonymous, w.props.finish, w.template)
  }

  /** Writes title.<locale>, approval, anonymous and finish, then sets the template. */
  function StoreData(w: Widget, locale: string, d: PropertiesData): (w': Widget)
    // reading the form back gives exactly what was stored
    ensures LoadData(w', locale) == d
    // nothing else changes
    ensures w'.props.skipComments == w.props.skipComments
    ensures forall l :: l != locale ==> LocalizedTitle(w'.props, l) == LocalizedTitle(w.props, l)
  {
    var p := SetLocalizedTitle(w.props, locale, d.title);
    Widget(p.(approval := d.approval, anonymous := d.anonymous, finish := d.finish), d.template)
  }

  /** propertiesAction. */
  function PropertiesAction(w: Widget, locale: string, s: PropertiesSubmission): (r: PropertiesResult)
    // cancel returns false, before validation
    ensures r.returned == Some(false) <==> s.Posted? && s.cancel
    // a valid submission returns true
    ensures r.returned == Some(true) <==> s.Posted? && !s.cancel && s.data.Some?
    // only a valid submission writes anything
    ensures r.returned != Some(true) ==> r.widget == w
    // and then it writes the submitted values, and only those
    ensures r.returned == Some(true) ==> LoadData(r.widget, locale) == s.data.value
    ensures r.returned == Some(true) ==> r.widget.props.skipComments == w.props.skipComments
    ensures r.returned == Some(true) ==>
      forall l :: l != locale ==> LocalizedTitle(r.widget.props, l) == LocalizedTitle(w.props, l)
    // every other case renders the properties form
    ensures r.view.Some? <==> r.returned.None?
    ensures r.view.Some? ==> r.view.value.initial == LoadData(w, locale)
    ensures r.view.Some? ==> (r.view.value.hasErrors <==> s.Posted?)
  {
    match s
    case Unsubmitted =>
      PropertiesResult(None, w, Some(PropertiesView(LoadData(w, locale), false)))
    case Posted(cancel, data) =>
      if cancel then
        PropertiesResult(Some(false), w, None)
      else if data.Some? then
        PropertiesResult(Some(true), StoreData(w, locale, data.value), None)
      else
        PropertiesResult(None, w, Some(PropertiesView(LoadData(w, locale), true)))
  }

  /** getPropertiesPreview, as labelled lines instead of HTML. */
  function Preview(p: Properties, locale: string): (lines: seq<PreviewLine>)
    ensures lines == [] <==> !Filled(LocalizedTitle(p, locale)) && !Filled(p.finish)
    ensures |lines| <= 2
    ensures |lines| == 2 ==> Filled(LocalizedTitle(p, locale)) && Filled(p.finish)
    ensures Filled(LocalizedTitle(p, locale)) ==>
      lines[0] == PreviewLine(TitleLabel, LocalizedTitle(p, locale).value)
    ensures Filled(p.finish) ==> lines[|lines| - 1] == PreviewLine(FinishLabel, p.finish.value)
    ensures forall i | 0 <= i < |lines| :: lines[i].labelKey in {TitleLabel, FinishLabel}
  {
    var title := LocalizedTitle(p, locale);
    (if Filled(title) then [PreviewLine(TitleLabel, title.value)] else [])
    + (if Filled(p.finish) then [PreviewLine(FinishLabel, p.finish.value)] else [])
  }

  /** A cancel returns false and writes nothing, whatever data came with it. */
  lemma CancelIsNoOp(w: Widget, locale: string, data: Option<PropertiesData>)
    ensures PropertiesAction(w, locale, Posted(true, data)).widget == w
    ensures PropertiesAction(w, locale, Posted(true, data)).returned == Some(false)
  {
  }

  /** Saving the same values twice leaves the widget as saving them once. */
  lemma SaveIsIdempotent(w: Widget, locale: string, d: PropertiesData)
    ensures
      var once := PropertiesAction(w, locale, Posted(false, Some(d))).widget;
      PropertiesAction(once, locale, Posted(false, Some(d))).widget == once
  {
  }

  /** The preview after a save lists the saved title and finish node. */
  lemma PreviewAfterSave(w: Widget, locale: string, d: PropertiesData)
    ensures
      var lines := Preview(PropertiesAction(w, locale, Posted(false, Some(d))).widget.props, locale);
      && (PreviewLine(TitleLabel, d.title.GetOr("")) in lines <==> Filled(d.title))
      && (PreviewLine(FinishLabel, d.finish.GetOr("")) in lines <==> Filled(d.finish))
  {
  }

  /** The saved settings govern the next index request: who gets the form,
      whether comments wait for approval, and where a post redirects to. */
  lemma SettingsGovernIndex(w: Widget, d: PropertiesData, req: Request)
    requires req.props == PropertiesAction(w, req.locale, Posted(false, Some(d))).widget.props
    ensures
      var r := IndexAction(req);
      && (r.Render? ==> (r.form.Some? <==> d.anonymous || req.user.Some?))
      && (r.Render? ==> r.title == d.title)
      && (r.Redirect? ==> (r.saved.isApproved <==> !d.approval))
      && (r.Redirect? ==> (r.target.Route? <==> Filled(d.finish)))
  {
  }
}
