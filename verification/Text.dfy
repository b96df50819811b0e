/** Strings as the Go standard library cuts them: `strings.Split`, `Join`,
    `TrimSpace`, `HasPrefix` and their inverses. A `char` stands for one
    character of UTF-8 text; every byte the program looks for is ASCII. */
module Text {

  datatype Option<+T> = None | Some(value: T)

  /** Go's unicode.IsSpace. */
  predicate IsSpace(c: char) {
    || c == ' ' || c == '\t' || c == '\n' || c == '\r' || c == '\U{000B}' || c == '\U{000C}'
    || c == '\U{0085}' || c == '\U{00A0}' || c == '\U{1680}' || '\U{2000}' <= c <= '\U{200A}'
    || c == '\U{2028}' || c == '\U{2029}' || c == '\U{202F}' || c == '\U{205F}' || c == '\U{3000}'
  }

  /** What `strings.TrimSpace(s) == ""` asks. */
  predicate Blank(s: string) {
    forall i | 0 <= i < |s| :: IsSpace(s[i])
  }

  predicate HasSuffix(s: string, suffix: string) {
    |suffix| <= |s| && s[|s| - |suffix|..] == suffix
  }

  function TrimLeft(s: string, cut: char -> bool): (r: string)
    ensures |r| <= |s| && r == s[|s| - |r|..]
    ensures r != "" ==> !cut(r[0])
    ensures forall i | 0 <= i < |s| - |r| :: cut(s[i])
  {
    if s != "" && cut(s[0]) then TrimLeft(s[1..], cut) else s
  }

  function TrimRight(s: string, cut: char -> bool): (r: string)
    ensures r <= s
    ensures r != "" ==> !cut(r[|r| - 1])
    ensures forall i | |r| <= i < |s| :: cut(s[i])
  {
    if s != "" && cut(s[|s| - 1]) then TrimRight(s[..|s| - 1], cut) else s
  }

  function TrimSpace(s: string): (r: string)
    ensures r == "" || (!IsSpace(r[0]) && !IsSpace(r[|r| - 1]))
  {
    TrimRight(TrimLeft(s, IsSpace), IsSpace)
  }

  /** t is s from the i-th character, without what is cut at both ends. */
  predicate TrimmedAt(s: string, cut: char -> bool, t: string, i: nat) {
    && i + |t| <= |s| && s[i..i + |t|] == t
    && (forall k | 0 <= k < i :: cut(s[k])) && (forall k | i + |t| <= k < |s| :: cut(s[k]))
    && (t != "" ==> !cut(t[0]) && !cut(t[|t| - 1]))
  }

  ghost predicate TrimsTo(s: string, cut: char -> bool, t: string) {
    exists i: nat :: TrimmedAt(s, cut, t, i)
  }

  /** Cutting from both ends leaves the one stretch that neither starts nor ends with
      what is cut, the rest being nothing else. */
  lemma {:induction false} TrimIs(s: string, cut: char -> bool, t: string)
    ensures TrimsTo(s, cut, t) <==> t == TrimRight(TrimLeft(s, cut), cut)
  {
    hide TrimLeft, TrimRight, TrimmedAt;
    var l := TrimLeft(s, cut);
    var r := TrimRight(l, cut);
    TrimsBothEnds(s, cut, l, r);
    if TrimsTo(s, cut, t) {
      var i: nat :| TrimmedAt(s, cut, t, i);
      TrimIsOne(s, cut, t, i, r, |s| - |l|);
    }
  }

  lemma {:induction false} TrimsBothEnds(s: string, cut: char -> bool, l: string, r: string)
    requires |l| <= |s| && l == s[|s| - |l|..] && (l != "" ==> !cut(l[0]))
    requires forall k | 0 <= k < |s| - |l| :: cut(s[k])
    requires r <= l && (r != "" ==> !cut(r[|r| - 1])) && forall k | |r| <= k < |l| :: cut(l[k])
    ensures TrimmedAt(s, cut, r, |s| - |l|)
  {
    var j := |s| - |l|;
    forall k | j + |r| <= k < |s|
      ensures cut(s[k])
    {
      assert s[k] == l[k - j];
    }
    if r != "" {
      assert r[0] == l[0];
    }
  }

  lemma {:induction false} TrimIsOne(s: string, cut: char -> bool, t: string, i: nat, r: string, j: nat)
    requires TrimmedAt(s, cut, t, i) && TrimmedAt(s, cut, r, j)
    ensures t == r
  {
    if t != "" {
      assert s[i] == t[0] && s[i + |t| - 1] == t[|t| - 1];
    }
    if r != "" {
      assert s[j] == r[0] && s[j + |r| - 1] == r[|r| - 1];
    }
  }

  lemma {:induction false} TrimSpaceIs(s: string, t: string)
    ensures TrimsTo(s, IsSpace, t) <==> t == TrimSpace(s)
  {
    hide TrimRight, TrimLeft, TrimsTo, IsSpace;
    TrimIs(s, IsSpace, t);
  }

  lemma {:induction false} SolidEnds(text: string)
    requires text != "" && !IsSpace(text[0]) && !IsSpace(text[|text| - 1])
    ensures TrimSpace(text) == text
  {
    hide IsSpace;
  }

  function Split(s: string, sep: char): (parts: seq<string>)
    ensures |parts| > 0
    ensures forall p | p in parts :: sep !in p
  {
    if s == "" then [""]
    else
      var tail := Split(s[1..], sep);
      if s[0] == sep then [""] + tail else [[s[0]] + tail[0]] + tail[1..]
  }

  function Join(parts: seq<string>, sep: string): string {
    if parts == [] then ""
    else if |parts| == 1 then parts[0]
    else parts[0] + sep + Join(parts[1..], sep)
  }

  lemma {:induction false} JoinOfSplit(s: string, sep: char)
    ensures Join(Split(s, sep), [sep]) == s
  {
    if s != "" {
      JoinOfSplit(s[1..], sep);
      var tail := Split(s[1..], sep);
      if s[0] == sep {
        assert Split(s, sep)[1..] == tail;
      } else {
        var parts := Split(s, sep);
        assert parts[1..] == tail[1..];
      }
    }
  }

  lemma {:induction false} SplitAtSeparator(a: string, sep: char, b: string)
    requires sep !in a
    ensures Split(a + [sep] + b, sep) == [a] + Split(b, sep)
  {
    var s := a + [sep] + b;
    if a == "" {
      assert s[1..] == b;
    } else {
      assert s[1..] == a[1..] + [sep] + b;
      SplitAtSeparator(a[1..], sep, b);
      assert [a[0]] + a[1..] == a;
    }
  }

  lemma {:induction false} SplitWithoutSeparator(a: string, sep: char)
    requires sep !in a
    ensures Split(a, sep) == [a]
  {
    if a != "" {
      SplitWithoutSeparator(a[1..], sep);
      assert [a[0]] + a[1..] == a;
    }
  }

  lemma {:induction false} SplitOfJoin(parts: seq<string>, sep: char)
    requires parts != [] && forall p | p in parts :: sep !in p
    ensures Split(Join(parts, [sep]), sep) == parts
  {
    hide Split;
    assert parts[0] in parts;
    if |parts| == 1 {
      SplitWithoutSeparator(parts[0], sep);
    } else {
      SplitOfJoin(parts[1..], sep);
      SplitAtSeparator(parts[0], sep, Join(parts[1..], [sep]));
      assert parts == [parts[0]] + parts[1..];
    }
  }

  lemma {:induction false} SplitOfConcat(a: string, sep: char, b: string)
    ensures Split(a + [sep] + b, sep) == Split(a, sep) + Split(b, sep)
  {
    var s := a + [sep] + b;
    if a == "" {
      assert s[1..] == b;
    } else {
      assert s[1..] == a[1..] + [sep] + b;
      SplitOfConcat(a[1..], sep, b);
    }
  }

  lemma {:induction false} JoinOfConcat(a: seq<string>, b: seq<string>, sep: string)
    requires a != [] && b != []
    ensures Join(a + b, sep) == Join(a, sep) + sep + Join(b, sep)
  {
    assert (a + b)[1..] == a[1..] + b;
    if |a| > 1 {
      JoinOfConcat(a[1..], b, sep);
    }
  }
}
