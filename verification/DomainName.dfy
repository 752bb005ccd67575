/** The one-pass test for domain names, against the grammar of labels separated by dots. */
module DomainName {
  import opened Strings

  predicate Letter(c: char) {
    'a' <= c <= 'z' || 'A' <= c <= 'Z' || c == '_'
  }

  predicate Digit(c: char) {
    '0' <= c <= '9'
  }

  predicate LabelChar(c: char) {
    Letter(c) || Digit(c) || c == '-'
  }

  /** A label as in section 2.3.1 of RFC 1035, with underscores and leading digits allowed. */
  predicate Label(l: string) {
    && 1 <= |l| <= 63
    && (forall i :: 0 <= i < |l| ==> LabelChar(l[i]))
    && l[0] != '-' && l[|l| - 1] != '-'
  }

  predicate NonNumeric(s: string) {
    exists i :: 0 <= i < |s| && s[i] != '.' && !Digit(s[i])
  }

  /** At most 253 characters, or 254 with a final dot; labels, of which the last may be empty. */
  predicate Grammar(s: string) {
    var labels := Split(s, '.');
    && 0 < |s| <= 254 && (|s| == 254 ==> s[|s| - 1] == '.')
    && (forall i :: 0 <= i < |labels| - 1 ==> Label(labels[i]))
    && (labels[|labels| - 1] == "" || Label(labels[|labels| - 1]))
    && NonNumeric(s)
  }

  /** A label that has begun well, of any length. */
  predicate Begun(l: string) {
    (forall i :: 0 <= i < |l| ==> LabelChar(l[i])) && (l != "" ==> l[0] != '-')
  }

  /** The labels completed so far are labels and the current one has begun well. */
  predicate Scanned(s: string) {
    var labels := Split(s, '.');
    (forall i :: 0 <= i < |labels| - 1 ==> Label(labels[i])) && Begun(labels[|labels| - 1])
  }

  function Current(s: string): string {
    Split(s, '.')[|Split(s, '.')| - 1]
  }

  function Last(s: string): char {
    if s == "" then '.' else s[|s| - 1]
  }

  lemma CurrentLast(s: string)
    ensures Current(s) == "" <==> Last(s) == '.'
    ensures Current(s) != "" ==> Current(s)[|Current(s)| - 1] == Last(s)
  {
  }

  /** One character on, the scan is as before: a dot completes a label, anything else extends it. */
  lemma ScanNext(s: string, i: nat)
    requires i < |s|
    ensures s[..i + 1][..i] == s[..i] && Last(s[..i + 1]) == s[i]
    ensures s[i] == '.' ==> Split(s[..i + 1], '.') == Split(s[..i], '.') + [""]
    ensures s[i] != '.' ==> Split(s[..i + 1], '.') == Extend(Split(s[..i], '.'), [s[i]])
    ensures Scanned(s[..i + 1]) <==>
              Scanned(s[..i]) &&
              if s[i] == '.' then Label(Current(s[..i]))
              else LabelChar(s[i]) && (Current(s[..i]) == "" ==> s[i] != '-')
  {
    assert s[..i + 1][..i] == s[..i];
    var before, after := Split(s[..i], '.'), Split(s[..i + 1], '.');
    if s[i] == '.' {
      DotCompletes(before);
    } else {
      CharExtends(before, s[i]);
    }
  }

  predicate ScannedLabels(labels: seq<string>)
    requires |labels| > 0
  {
    (forall i :: 0 <= i < |labels| - 1 ==> Label(labels[i])) && Begun(labels[|labels| - 1])
  }

  lemma DotCompletes(before: seq<string>)
    requires |before| > 0
    ensures ScannedLabels(before + [""]) <==> ScannedLabels(before) && Label(before[|before| - 1])
  {
    var after := before + [""];
    if ScannedLabels(after) {
      assert forall i :: 0 <= i < |before| ==> after[i] == before[i];
      assert Label(after[|before| - 1]);
      forall i | 0 <= i < |before| - 1 ensures Label(before[i]) {
        assert Label(after[i]);
      }
    }
  }

  lemma CharExtends(before: seq<string>, c: char)
    requires |before| > 0
    ensures ScannedLabels(Extend(before, [c])) <==>
            ScannedLabels(before) && LabelChar(c) && (before[|before| - 1] == "" ==> c != '-')
  {
    var after, n := Extend(before, [c]), |before| - 1;
    BegunExtends(before[n], c);
    assert forall i :: 0 <= i < n ==> after[i] == before[i];
    assert after[n] == before[n] + [c];
  }

  lemma BegunExtends(l: string, c: char)
    ensures Begun(l + [c]) <==> Begun(l) && LabelChar(c) && (l == "" ==> c != '-')
  {
    var m := l + [c];
    assert m[|l|] == c;
    assert forall i :: 0 <= i < |l| ==> m[i] == l[i];
  }

  /** Once the scan has gone wrong, nothing that follows repairs it. */
  lemma ScanPrefix(s: string, i: nat)
    requires i <= |s| && Grammar(s)
    ensures Scanned(s[..i])
  {
    SplitGrows(s, i, '.');
    var a, b := Split(s[..i], '.'), Split(s, '.');
    var n := |a| - 1;
    forall k | 0 <= k < n ensures Label(a[k]) {
      assert a[k] == a[..n][k] == b[..n][k] == b[k];
    }
    assert Begun(b[n]);
    assert forall k :: 0 <= k < |a[n]| ==> a[n][k] == b[n][k];
  }

  /** What the scan asks of the next character, knowing the last one and the length of the label. */
  predicate Accepts(last: char, partlen: nat, c: char) {
    if c == '.' then last != '.' && last != '-' && 1 <= partlen <= 63
    else LabelChar(c) && (c == '-' ==> last != '.')
  }

  lemma ScanStep(s: string, i: nat)
    requires i < |s| && Scanned(s[..i])
    ensures Last(s[..i + 1]) == s[i]
    ensures |Current(s[..i + 1])| == if s[i] == '.' then 0 else |Current(s[..i])| + 1
    ensures Accepts(Last(s[..i]), |Current(s[..i])|, s[i]) <==> Scanned(s[..i + 1])
    ensures !Scanned(s[..i + 1]) ==> !Grammar(s)
  {
    ScanNext(s, i);
    CurrentLast(s[..i]);
    if Grammar(s) {
      ScanPrefix(s, i + 1);
    }
  }

  lemma ScanEnd(s: string)
    requires Scanned(s) && s != ""
    ensures Grammar(s) <==>
              && |s| <= 254 && (|s| == 254 ==> s[|s| - 1] == '.')
              && Last(s) != '-' && |Current(s)| <= 63 && NonNumeric(s)
  {
    CurrentLast(s);
  }

  method IsDomainName(s: string) returns (ok: bool)
    ensures ok <==> Grammar(s)
  {
    var l := |s|;
    if l == 0 || l > 254 || (l == 254 && s[l - 1] != '.') {
      return false;
    }
    var last := '.';
    var nonNumeric := false;
    var partlen := 0;
    for i := 0 to |s|
      invariant Scanned(s[..i])
      invariant last == Last(s[..i]) && partlen == |Current(s[..i])|
      invariant nonNumeric <==> NonNumeric(s[..i])
    {
      var c := s[i];
      ScanStep(s, i);
      NonNumericNext(s, i);
      if Letter(c) {
        nonNumeric := true;
        partlen := partlen + 1;
      } else if Digit(c) {
        partlen := partlen + 1;
      } else if c == '-' {
        if last == '.' {
          return false;
        }
        partlen := partlen + 1;
        nonNumeric := true;
      } else if c == '.' {
        if last == '.' || last == '-' {
          return false;
        }
        if partlen > 63 || partlen == 0 {
          return false;
        }
        partlen := 0;
      } else {
        return false;
      }
      last := c;
    }
    assert s[..|s|] == s;
    ScanEnd(s);
    if last == '-' || partlen > 63 {
      return false;
    }
    return nonNumeric;
  }

  lemma NonNumericNext(s: string, i: nat)
    requires i < |s|
    ensures NonNumeric(s[..i + 1]) <==> NonNumeric(s[..i]) || (s[i] != '.' && !Digit(s[i]))
  {
    var t := s[..i + 1];
    assert forall k :: 0 <= k < i ==> t[k] == s[..i][k];
    if s[i] != '.' && !Digit(s[i]) {
      assert t[i] == s[i];
    }
    if NonNumeric(s[..i]) {
      var k :| 0 <= k < i && s[..i][k] != '.' && !Digit(s[..i][k]);
      assert t[k] != '.' && !Digit(t[k]);
    }
  }
}
