/** The string operations of Go's `strings` package that the modelled code calls.
    A string is a sequence of bytes, written as characters. */
module Text {

  predicate HasPrefix(s: string, prefix: string) {
    prefix <= s
  }

  predicate OccursAt(s: string, sub: string, i: int) {
    0 <= i <= |s| - |sub| && s[i..i + |sub|] == sub
  }

  predicate Contains(s: string, sub: string) {
    exists i | 0 <= i <= |s| :: OccursAt(s, sub, i)
  }

  /** The first position of `c` at or after `from`, or -1. */
  function IndexFrom(s: string, c: char, from: nat): (i: int)
    requires from <= |s|
    ensures i == -1 || from <= i < |s|
    ensures i == -1 ==> forall j :: from <= j < |s| ==> s[j] != c
    ensures i >= 0 ==> s[i] == c && forall j :: from <= j < i ==> s[j] != c
    decreases |s| - from
  {
    if from == |s| then -1 else if s[from] == c then from else IndexFrom(s, c, from + 1)
  }

  /** The last position of `c` before `to`, or -1. */
  function LastIndexTo(s: string, c: char, to: nat): (i: int)
    requires to <= |s|
    ensures -1 <= i < to
    ensures i == -1 ==> forall j :: 0 <= j < to ==> s[j] != c
    ensures i >= 0 ==> s[i] == c && forall j :: i < j < to ==> s[j] != c
  {
    if to == 0 then -1 else if s[to - 1] == c then to - 1 else LastIndexTo(s, c, to - 1)
  }

  function Index(s: string, c: char): (i: int)
    ensures -1 <= i < |s|
    ensures i == -1 <==> c !in s
    ensures i >= 0 ==> s[i] == c && forall j :: 0 <= j < i ==> s[j] != c
  {
    IndexFrom(s, c, 0)
  }

  function LastIndex(s: string, c: char): (i: int)
    ensures -1 <= i < |s|
    ensures i == -1 <==> c !in s
    ensures i >= 0 ==> s[i] == c && forall j :: i < j < |s| ==> s[j] != c
  {
    LastIndexTo(s, c, |s|)
  }

  /** strings.Split with a one-character separator. */
  function Split(s: string, sep: char): (es: seq<string>)
    ensures |es| > 0
    ensures forall e :: e in es ==> sep !in e
    ensures |es| == 1 <==> sep !in s
    decreases |s|
  {
    var i := Index(s, sep);
    if i == -1 then [s] else [s[..i]] + Split(s[i + 1..], sep)
  }

  /** strings.Join with a one-character separator. */
  function Join(es: seq<string>, sep: char): string {
    if |es| == 0 then "" else if |es| == 1 then es[0] else es[0] + [sep] + Join(es[1..], sep)
  }

  lemma {:induction false} SplitCons(e: string, rest: string, sep: char)
    requires sep !in e
    ensures Split(e + [sep] + rest, sep) == [e] + Split(rest, sep)
  {
    var s := e + [sep] + rest;
    assert s[|e|] == sep;
    assert forall j :: 0 <= j < |e| ==> s[j] == e[j];
    assert Index(s, sep) == |e|;
    assert s[..|e|] == e && s[|e| + 1..] == rest;
  }

  lemma SplitNothing(s: string, sep: char)
    requires sep !in s
    ensures Split(s, sep) == [s]
  {
  }

  /** Splitting undoes joining on lists whose elements are free of the separator. */
  lemma {:induction false} SplitJoin(es: seq<string>, sep: char)
    requires |es| > 0 && forall e :: e in es ==> sep !in e
    ensures Split(Join(es, sep), sep) == es
  {
    if |es| == 1 {
      assert sep !in es[0];
      assert es == [es[0]];
    } else {
      SplitJoin(es[1..], sep);
      SplitCons(es[0], Join(es[1..], sep), sep);
      assert es == [es[0]] + es[1..];
    }
  }

  lemma Cut(s: string, i: nat)
    requires i < |s|
    ensures s == s[..i] + [s[i]] + s[i + 1..]
  {
  }

  lemma {:induction false} JoinCons(head: string, tail: seq<string>, sep: char)
    requires |tail| > 0
    ensures Join([head] + tail, sep) == head + [sep] + Join(tail, sep)
  {
    assert ([head] + tail)[1..] == tail;
  }

  /** Joining undoes splitting on every string. */
  lemma {:induction false} JoinSplit(s: string, sep: char)
    ensures Join(Split(s, sep), sep) == s
    decreases |s|
  {
    var i := Index(s, sep);
    if i != -1 {
      JoinSplit(s[i + 1..], sep);
      JoinCons(s[..i], Split(s[i + 1..], sep), sep);
      Cut(s, i);
    }
  }

  lemma {:induction false} JoinSnoc(init: seq<string>, last: string, sep: char)
    requires |init| > 0
    ensures Join(init + [last], sep) == Join(init, sep) + [sep] + last
  {
    if |init| > 1 {
      JoinSnoc(init[1..], last, sep);
      assert (init + [last])[1..] == init[1..] + [last];
    }
  }

  lemma LastIndexIs(a: string, b: string, sep: char)
    requires sep !in b
    ensures var s := a + [sep] + b; LastIndex(s, sep) == |a| && s[..|a|] == a && s[|a| + 1..] == b
  {
    var s := a + [sep] + b;
    assert s[|a|] == sep;
    assert forall j :: |a| < j < |s| ==> s[j] == b[j - |a| - 1];
  }
}
