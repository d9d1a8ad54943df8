/**
 * The per-instance settings of the comments widget, as read with
 * getWidgetProperty and written with setWidgetProperty. The generic key/value
 * bag of the CMS is given one typed field per key the widget uses.
 */
module WidgetProperties {
  import opened Wrappers

  datatype Properties = Properties(
    titles: map<string, string>,  // "title.<locale>", keyed by locale; a missing locale reads as null
    approval: bool,               // "approval": comments wait for a moderator
    anonymous: bool,              // "anonymous": visitors without a login may post
    finish: Option<string>,       // "finish": node to redirect to after posting
    skipComments: bool)           // "comments.skip": do not load the listing

  /** PHP truthiness of an optional string: null, "" and "0" are falsy. */
  predicate Filled(s: Option<string>) {
    s.Some? && s.value != "" && s.value != "0"
  }

  /** The "title.<locale>" property. */
  function LocalizedTitle(p: Properties, locale: string): Option<string> {
    if locale in p.titles then Some(p.titles[locale]) else None
  }

  /** setWidgetProperty("title.<locale>", title): null clears the key. */
  function SetLocalizedTitle(p: Properties, locale: string, title: Option<string>): (q: Properties)
    ensures LocalizedTitle(q, locale) == title
    ensures forall l :: l != locale ==> LocalizedTitle(q, l) == LocalizedTitle(p, l)
    ensures q.approval == p.approval && q.anonymous == p.anonymous
    ensures q.finish == p.finish && q.skipComments == p.skipComments
  {
    match title
    case Some(t) => p.(titles := p.titles[locale := t])
    case None => p.(titles := p.titles - {locale})
  }
}
