/**
 * The target string of `fixTemplates` (datasource.ts): the elements of a
 * query joined into one string, with ";" for element lists and " " for
 * every other query type.
 */
module Templates {
  import opened Wrappers
  import opened Types

  /** `Array.prototype.join` with a one-character separator. */
  function Join(xs: seq<string>, sep: char): string
  {
    if |xs| == 0 then ""
    else if |xs| == 1 then xs[0]
    else xs[0] + [sep] + Join(xs[1..], sep)
  }

  /** `String.prototype.split` on one character: the pieces between separators. */
  function Split(s: string, sep: char): (parts: seq<string>)
    ensures |parts| >= 1
  {
    if s == [] then [""]
    else
      var rest := Split(s[1..], sep);
      if s[0] == sep then [""] + rest
      else [[s[0]] + rest[0]] + rest[1..]
  }

  /**
   * The separator `fixTemplates` picks: ";" for an element list and for a
   * missing or empty query type, " " for any other type.
   */
  function Separator(queryType: Option<string>): (sep: char)
    ensures sep == ';' <==> queryType.None? || queryType == Some("") || queryType == Some("Element List")
    ensures sep == ';' || sep == ' '
  {
    if !Truthy(queryType) || queryType.value == "Element List" then ';' else ' '
  }

  /** No element contains the separator, so the joined string can be split back. */
  predicate Separable(xs: seq<string>, sep: char)
  {
    forall i :: 0 <= i < |xs| ==> sep !in xs[i]
  }

  /** Splitting a piece that holds no separator, followed by a separator, peels it off. */
  lemma {:induction false} SplitPrefix(x: string, sep: char, t: string)
    requires sep !in x
    ensures Split(x + [sep] + t, sep) == [x] + Split(t, sep)
  {
    if x == [] {
      assert x + [sep] + t == [sep] + t;
      assert ([sep] + t)[1..] == t;
    } else {
      assert (x + [sep] + t)[1..] == x[1..] + [sep] + t;
      SplitPrefix(x[1..], sep, t);
      assert [x[0]] + x[1..] == x;
    }
  }

  /** A piece that holds no separator splits to itself. */
  lemma {:induction false} SplitWhole(x: string, sep: char)
    requires sep !in x
    ensures Split(x, sep) == [x]
  {
    if x != [] {
      SplitWhole(x[1..], sep);
      assert [x[0]] + x[1..] == x;
    }
  }

  /** Joining then splitting gives back the elements when none holds the separator. */
  lemma {:induction false} SplitJoin(xs: seq<string>, sep: char)
    requires |xs| > 0
    requires Separable(xs, sep)
    ensures Split(Join(xs, sep), sep) == xs
  {
    if |xs| == 1 {
      SplitWhole(xs[0], sep);
    } else {
      SplitJoin(xs[1..], sep);
      SplitPrefix(xs[0], sep, Join(xs[1..], sep));
      assert [xs[0]] + xs[1..] == xs;
    }
  }

  /** Splitting then joining gives back any string. */
  lemma {:induction false} JoinSplit(s: string, sep: char)
    ensures Join(Split(s, sep), sep) == s
  {
    if s != [] {
      var rest := Split(s[1..], sep);
      JoinSplit(s[1..], sep);
      if s[0] == sep {
        assert ([""] + rest)[1..] == rest;
        assert [s[0]] + s[1..] == s;
      } else {
        JoinHead(s[0], rest, sep);
        assert [s[0]] + s[1..] == s;
      }
    }
  }

  /** Prepending a character to the first piece prepends it to the joined string. */
  lemma JoinHead(c: char, xs: seq<string>, sep: char)
    requires |xs| >= 1
    ensures Join([[c] + xs[0]] + xs[1..], sep) == [c] + Join(xs, sep)
  {
    var ys := [[c] + xs[0]] + xs[1..];
    assert ys[1..] == xs[1..];
  }

  /**
   * `fixTemplates`: "" for an undefined target or an undefined element list;
   * otherwise the elements joined with the separator of the query type.
   */
  function FixTemplates(target: Option<RequestTarget>): (r: string)
    ensures target.None? || target.value.Elements().None? ==> r == ""
    ensures target.Some? && target.value.Elements() == Some([]) ==> r == ""
  {
    if target.None? || target.value.Elements().None? then ""
    else Join(target.value.Elements().value, Separator(target.value.QueryType()))
  }

  /**
   * The target string carries the element list: splitting it on the
   * separator of the query type gives the elements back, provided there is
   * at least one and none holds the separator.
   */
  lemma FixTemplatesRecoversElements(target: RequestTarget)
    requires target.Elements().Some? && |target.Elements().value| > 0
    requires Separable(target.Elements().value, Separator(target.QueryType()))
    ensures Split(FixTemplates(Some(target)), Separator(target.QueryType())) == target.Elements().value
  {
    SplitJoin(target.Elements().value, Separator(target.QueryType()));
  }
}
