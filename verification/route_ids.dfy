/**
 * Route ids of CMS front-end pages, "cms.front.<root node>.<node>.<locale>",
 * and their decomposition on '.'.
 */
module RouteIds {

  const Separator: char := '.'

  predicate DotFree(s: string) {
    Separator !in s
  }

  /** The route of a node of the site below the given root node, in a locale. */
  function RouteId(rootNodeId: string, nodeId: string, locale: string): string {
    "cms.front." + rootNodeId + "." + nodeId + "." + locale
  }

  /** Splits a string on every '.'; the decomposition that proves RouteIdInjective. */
  function Split(s: string): (parts: seq<string>)
    ensures |parts| >= 1
    decreases |s|
  {
    if |s| == 0 then [""]
    else if s[0] == Separator then [""] + Split(s[1..])
    else
      var rest := Split(s[1..]);
      [[s[0]] + rest[0]] + rest[1..]
  }

  /** A dot-free part followed by '.' splits off as the first part. */
  lemma {:induction false} SplitAfterPart(part: string, tail: string)
    requires DotFree(part)
    ensures Split(part + [Separator] + tail) == [part] + Split(tail)
    decreases |part|
  {
    if |part| == 0 {
      assert part + [Separator] + tail == [Separator] + tail;
      assert ([Separator] + tail)[1..] == tail;
    } else {
      var s := part + [Separator] + tail;
      assert s[0] == part[0];
      assert s[1..] == part[1..] + [Separator] + tail;
      SplitAfterPart(part[1..], tail);
      assert [part[0]] + part[1..] == part;
    }
  }

  /** A dot-free string splits into itself alone. */
  lemma {:induction false} SplitDotFree(s: string)
    requires DotFree(s)
    ensures Split(s) == [s]
    decreases |s|
  {
    if |s| > 0 {
      SplitDotFree(s[1..]);
      assert [s[0]] + s[1..] == s;
    }
  }

  /** Splitting a route id gives back the parts it was built from. */
  lemma RouteIdSplits(rootNodeId: string, nodeId: string, locale: string)
    requires DotFree(rootNodeId) && DotFree(nodeId) && DotFree(locale)
    ensures Split(RouteId(rootNodeId, nodeId, locale)) == ["cms", "front", rootNodeId, nodeId, locale]
  {
    var t3 := nodeId + [Separator] + locale;
    var t2 := rootNodeId + [Separator] + t3;
    var t1 := "front" + [Separator] + t2;
    var t0 := "cms" + [Separator] + t1;
    assert RouteId(rootNodeId, nodeId, locale) == t0;
    SplitDotFree(locale);
    SplitAfterPart(nodeId, locale);
    assert Split(t3) == [nodeId, locale];
    SplitAfterPart(rootNodeId, t3);
    assert Split(t2) == [rootNodeId, nodeId, locale];
    SplitAfterPart("front", t2);
    assert Split(t1) == ["front", rootNodeId, nodeId, locale];
    SplitAfterPart("cms", t1);
  }

  /** Distinct dot-free (root node, node, locale) triples name distinct routes. */
  lemma RouteIdInjective(root1: string, node1: string, locale1: string,
                         root2: string, node2: string, locale2: string)
    requires DotFree(root1) && DotFree(node1) && DotFree(locale1)
    requires DotFree(root2) && DotFree(node2) && DotFree(locale2)
    requires RouteId(root1, node1, locale1) == RouteId(root2, node2, locale2)
    ensures root1 == root2 && node1 == node2 && locale1 == locale2
  {
    RouteIdSplits(root1, node1, locale1);
    RouteIdSplits(root2, node2, locale2);
  }
}
