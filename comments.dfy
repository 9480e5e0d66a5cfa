/** The free-text comment of a well: the ';'-joined distinct comments of its
    observations in order of first appearance (pandas dropna().unique()),
    missing (NA) when none of them has one, and extended by the layer
    resolver with the tags AboveTopography and BelowLowestLayer. */
module Comments {
  import opened Wrappers

  const Separator: char := ';'

  /** The present comments, in order (dropna). */
  function Present(cs: seq<Option<string>>): (r: seq<string>)
    ensures |r| <= |cs|
    ensures forall s :: s in r <==> Some(s) in cs
  {
    if |cs| == 0 then []
    else
      var r := Present(cs[..|cs| - 1]);
      assert cs == cs[..|cs| - 1] + [cs[|cs| - 1]];
      match cs[|cs| - 1]
      case None => r
      case Some(s) => r + [s]
  }

  predicate NoDuplicates(xs: seq<string>) {
    forall i, j :: 0 <= i < j < |xs| ==> xs[i] != xs[j]
  }

  /** Each value once, at the position of its first occurrence (unique). */
  function Distinct(xs: seq<string>): (r: seq<string>)
    ensures NoDuplicates(r)
    ensures forall s :: s in r <==> s in xs
  {
    if |xs| == 0 then []
    else
      var r := Distinct(xs[..|xs| - 1]);
      assert xs == xs[..|xs| - 1] + [xs[|xs| - 1]];
      if xs[|xs| - 1] in r then r else r + [xs[|xs| - 1]]
  }

  /** ';'.join */
  function Join(xs: seq<string>): string {
    if |xs| == 0 then ""
    else if |xs| == 1 then xs[0]
    else xs[0] + [Separator] + Join(xs[1..])
  }

  /** The comment's parts between separators (str.split(';')). */
  function Split(s: string): (r: seq<string>)
    ensures |r| >= 1
  {
    if |s| == 0 then [""]
    else if s[0] == Separator then [""] + Split(s[1..])
    else
      var rest := Split(s[1..]);
      [[s[0]] + rest[0]] + rest[1..]
  }

  /** The tags of a comment: none when it is missing. */
  function Tags(c: Option<string>): seq<string> {
    match c
    case None => []
    case Some(s) => Split(s)
  }

  predicate Plain(s: string) {
    Separator !in s
  }

  /** The well comment built from its observations' comments. */
  function CommentUnion(cs: seq<Option<string>>): (r: Option<string>)
    ensures r == None <==> forall i :: 0 <= i < |cs| ==> cs[i] == None
  {
    var present := Present(cs);
    if |present| > 0 then
      assert Some(present[0]) in cs;
      Some(Join(Distinct(present)))
    else None
  }

  /** A tag appended by the layer resolver: the comment becomes the tag when
      missing, otherwise ';' and the tag are appended. */
  function AddTag(c: Option<string>, tag: string): (r: Option<string>)
    ensures r.Some?
  {
    match c
    case None => Some(tag)
    case Some(s) => Some(s + [Separator] + tag)
  }

  lemma {:induction false} SplitPlain(s: string)
    requires Plain(s)
    ensures Split(s) == [s]
  {
    if |s| > 0 {
      SplitPlain(s[1..]);
      assert [s[0]] + s[1..] == s;
    }
  }

  lemma {:induction false} SplitAfter(s: string, t: string)
    requires Plain(t)
    ensures Split(s + [Separator] + t) == Split(s) + [t]
  {
    if |s| == 0 {
      assert s + [Separator] + t == [Separator] + t;
      SplitPlain(t);
    } else {
      assert (s + [Separator] + t)[1..] == s[1..] + [Separator] + t;
      SplitAfter(s[1..], t);
    }
  }

  lemma {:induction false} SplitJoin(xs: seq<string>)
    requires |xs| >= 1
    requires forall i :: 0 <= i < |xs| ==> Plain(xs[i])
    ensures Split(Join(xs)) == xs
  {
    if |xs| == 1 {
      SplitPlain(xs[0]);
    } else {
      SplitJoin(xs[1..]);
      SplitBefore(xs[0], Join(xs[1..]));
    }
  }

  lemma {:induction false} SplitBefore(s: string, t: string)
    requires Plain(s)
    ensures Split(s + [Separator] + t) == [s] + Split(t)
  {
    if |s| == 0 {
      assert s + [Separator] + t == [Separator] + t;
      assert ([Separator] + t)[1..] == t;
    } else {
      assert (s + [Separator] + t)[1..] == s[1..] + [Separator] + t;
      SplitBefore(s[1..], t);
      assert [s[0]] + s[1..] == s;
    }
  }

  /** Appending a tag adds exactly that tag after the existing ones. */
  lemma AddTagAppends(c: Option<string>, tag: string)
    requires Plain(tag)
    ensures Tags(AddTag(c, tag)) == Tags(c) + [tag]
  {
    match c
    case None => SplitPlain(tag);
    case Some(s) => SplitAfter(s, tag);
  }

  /** Reading the union back gives each distinct observation comment once,
      in order of first appearance, as long as comments hold no ';'. */
  lemma UnionTags(cs: seq<Option<string>>)
    requires forall i :: 0 <= i < |cs| && cs[i].Some? ==> Plain(cs[i].value)
    ensures Tags(CommentUnion(cs)) == Distinct(Present(cs))
  {
    var present := Present(cs);
    if |present| > 0 {
      var d := Distinct(present);
      assert present[0] in d;
      forall i | 0 <= i < |d| ensures Plain(d[i]) {
        assert d[i] in present;
        assert Some(d[i]) in cs;
      }
      SplitJoin(d);
    }
  }
}
