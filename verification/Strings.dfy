/** Splitting strings at a separator and joining them again. */
module Strings {

  function Split(s: string, c: char): (parts: seq<string>)
    ensures |parts| > 0
  {
    if s == "" then [""]
    else
      var n := |s| - 1;
      var front := Split(s[..n], c);
      if s[n] == c then front + [""] else Extend(front, [s[n]])
  }

  /** `parts` with `t` added to the last of them. */
  function Extend(parts: seq<string>, t: string): seq<string>
    requires |parts| > 0
  {
    parts[..|parts| - 1] + [parts[|parts| - 1] + t]
  }

  function Join(parts: seq<string>, c: char): string
    requires |parts| > 0
  {
    if |parts| == 1 then parts[0] else Join(parts[..|parts| - 1], c) + [c] + parts[|parts| - 1]
  }

  predicate AllFree(parts: seq<string>, c: char) {
    forall i :: 0 <= i < |parts| ==> c !in parts[i]
  }

  lemma JoinSeparator(parts: seq<string>, c: char)
    requires |parts| > 0
    ensures Join(parts + [""], c) == Join(parts, c) + [c]
  {
    assert (parts + [""])[..|parts|] == parts;
    assert Join(parts, c) + [c] + "" == Join(parts, c) + [c];
  }

  lemma {:induction false} JoinExtend(parts: seq<string>, t: string, c: char)
    requires |parts| > 0
    ensures Join(Extend(parts, t), c) == Join(parts, c) + t
  {
    var n := |parts| - 1;
    var longer := Extend(parts, t);
    assert longer[..n] == parts[..n] && longer[n] == parts[n] + t;
    if n > 0 {
      Associate(Join(parts[..n], c) + [c], parts[n], t);
    }
  }

  lemma Associate(a: string, b: string, c: string)
    ensures (a + b) + c == a + (b + c)
  {
  }

  /** Splitting loses nothing, and leaves no separator in a part. */
  lemma {:induction false} JoinSplit(s: string, c: char)
    ensures Join(Split(s, c), c) == s
    ensures AllFree(Split(s, c), c)
  {
    if s != "" {
      var n := |s| - 1;
      JoinSplit(s[..n], c);
      assert s == s[..n] + [s[n]];
      if s[n] == c {
        JoinSeparator(Split(s[..n], c), c);
      } else {
        JoinExtend(Split(s[..n], c), [s[n]], c);
      }
    }
  }

  /** There is one part exactly when there is no separator. */
  lemma SplitsOnce(s: string, c: char)
    ensures |Split(s, c)| == 1 <==> c !in s
  {
    if c !in s {
      SplitNone(s, c);
    } else {
      JoinSplit(s, c);
    }
  }

  lemma {:induction false} SplitSnoc(s: string, x: char, c: char)
    ensures Split(s + [x], c) == if x == c then Split(s, c) + [""] else Extend(Split(s, c), [x])
  {
    assert (s + [x])[..|s|] == s;
  }

  /** Text without separators goes to the last part. */
  lemma {:induction false} SplitFree(s: string, t: string, c: char)
    requires c !in t
    ensures Split(s + t, c) == Extend(Split(s, c), t)
  {
    if t == "" {
      assert s + t == s;
      ExtendNone(Split(s, c));
    } else {
      var n := |t| - 1;
      SplitFree(s, t[..n], c);
      assert t == t[..n] + [t[n]];
      assert s + t == (s + t[..n]) + [t[n]];
      SplitSnoc(s + t[..n], t[n], c);
      ExtendTwice(Split(s, c), t[..n], [t[n]]);
    }
  }

  lemma ExtendNone(parts: seq<string>)
    requires |parts| > 0
    ensures Extend(parts, "") == parts
  {
    assert parts[|parts| - 1] + "" == parts[|parts| - 1];
  }

  lemma ExtendTwice(parts: seq<string>, t: string, u: string)
    requires |parts| > 0
    ensures Extend(Extend(parts, t), u) == Extend(parts, t + u)
  {
    assert parts[|parts| - 1] + t + u == parts[|parts| - 1] + (t + u);
  }

  lemma SplitNone(t: string, c: char)
    requires c !in t
    ensures Split(t, c) == [t]
  {
    SplitFree("", t, c);
    assert "" + t == t;
  }

  /** A separator and a part without separators add one part. */
  lemma SplitOneMore(s: string, t: string, c: char)
    requires c !in t
    ensures Split(s + [c] + t, c) == Split(s, c) + [t]
  {
    SplitFree(s + [c], t, c);
    SplitSnoc(s, c, c);
    assert "" + t == t;
    assert Extend(Split(s, c) + [""], t) == Split(s, c) + [t];
  }

  lemma {:induction false} SplitJoin(parts: seq<string>, c: char)
    requires |parts| > 0 && AllFree(parts, c)
    ensures Split(Join(parts, c), c) == parts
  {
    if |parts| == 1 {
      SplitNone(parts[0], c);
    } else {
      var n := |parts| - 1;
      SplitJoin(parts[..n], c);
      SplitOneMore(Join(parts[..n], c), parts[n], c);
    }
  }

  /** Reading on keeps all parts but the last, and the last is the beginning of what it becomes. */
  lemma {:induction false} SplitGrows(s: string, i: nat, c: char)
    requires i <= |s|
    ensures var a, b := Split(s[..i], c), Split(s, c);
            && |a| <= |b| && a[..|a| - 1] == b[..|a| - 1] && a[|a| - 1] <= b[|a| - 1]
    decreases |s| - i
  {
    if i == |s| {
      assert s[..i] == s;
    } else {
      SplitGrows(s, i + 1, c);
      assert s[..i + 1][..i] == s[..i];
    }
  }
}
