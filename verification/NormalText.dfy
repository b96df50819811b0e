/** Every change made to a received document's bytes before they are stored
    (internal/okf/raw.go:50-118). */
module NormalText {
  import opened Text

  const BOM: char := '\U{FEFF}'

  /** A carriage return that only carriage returns separate from a line feed. */
  ghost predicate TouchesLf(s: string, i: nat)
    requires i < |s|
  {
    s[i] == '\r' && exists j :: i < j < |s| && s[j] == '\n' && forall k | i < k < j :: s[k] == '\r'
  }

  /** The first n characters without the carriage returns that touch a line feed. */
  ghost function FoldedUpTo(s: string, n: nat): string
    requires n <= |s|
  {
    if n == 0 then ""
    else FoldedUpTo(s, n - 1) + (if TouchesLf(s, n - 1) then "" else [s[n - 1]])
  }

  ghost function Folded(s: string): string {
    FoldedUpTo(s, |s|)
  }

  lemma {:induction false} FoldedRun(s: string, a: nat, b: nat)
    requires a <= b <= |s| && forall i | a <= i < b :: !TouchesLf(s, i)
    ensures FoldedUpTo(s, b) == FoldedUpTo(s, a) + s[a..b]
  {
    if a < b {
      FoldedRun(s, a, b - 1);
      assert s[a..b] == s[a..b - 1] + [s[b - 1]];
    }
  }

  lemma {:induction false} FoldedAway(s: string, a: nat, b: nat)
    requires a <= b <= |s| && forall i | a <= i < b :: TouchesLf(s, i)
    ensures FoldedUpTo(s, b) == FoldedUpTo(s, a)
  {
    if a < b {
      FoldedAway(s, a, b - 1);
    }
  }

  /** internal/okf/raw.go:93-118. */
  method FoldCrlf(s: string) returns (b: string)
    ensures b == Folded(s)
  {
    if '\r' !in s {
      FoldedRun(s, 0, |s|);
      return s;
    }
    b := "";
    var cr := 0;
    for i := 0 to |s|
      invariant 0 <= cr <= i && b == FoldedUpTo(s, i - cr)
      invariant forall k | i - cr <= k < i :: s[k] == '\r'
    {
      if s[i] == '\r' {
        cr := cr + 1;
      } else if s[i] == '\n' {
        FoldedAway(s, i - cr, i);
        cr := 0;
        b := b + "\n";
      } else {
        FoldedRun(s, i - cr, i);
        b := Flush(b, s[i - cr..i], cr);
        cr := 0;
        b := b + [s[i]];
      }
    }
    FoldedRun(s, |s| - cr, |s|);
    b := Flush(b, s[|s| - cr..], cr);
  }

  /** Writing back the carriage returns that were held. */
  method Flush(b0: string, ghost held: string, cr0: nat) returns (b: string)
    requires |held| == cr0 && forall i | 0 <= i < cr0 :: held[i] == '\r'
    ensures b == b0 + held
  {
    b := b0;
    var cr := cr0;
    while cr > 0
      invariant 0 <= cr <= cr0 && b == b0 + held[..cr0 - cr]
    {
      b := b + "\r";
      cr := cr - 1;
    }
  }

  predicate IsLineEnd(c: char) {
    c == '\n' || c == '\r'
  }

  predicate StartsWithBom(s: string) {
    s != "" && s[0] == BOM
  }

  function WithoutBom(s: string): string {
    if StartsWithBom(s) then s[1..] else s
  }

  /** The text that is stored. */
  ghost function Normalized(raw: string): string {
    var s := TrimRight(Folded(WithoutBom(raw)), IsLineEnd);
    if s == "" then "" else s + "\n"
  }

  method NormalizeText(raw: string) returns (r: string)
    ensures r == Normalized(raw)
  {
    var s := FoldCrlf(WithoutBom(raw));
    s := TrimRight(s, IsLineEnd);
    if s == "" {
      return "";
    }
    return s + "\n";
  }

  // ------------------------------------------------------------------
  // What the stored text is

  predicate NoCrlf(s: string) {
    forall i | 0 < i < |s| && s[i] == '\n' :: s[i - 1] != '\r'
  }

  lemma {:induction false} TouchesBackwards(s: string, i: nat)
    requires i + 1 < |s| && s[i] == '\r' && (s[i + 1] == '\n' || TouchesLf(s, i + 1))
    ensures TouchesLf(s, i)
  {
    if s[i + 1] != '\n' {
      var j :| i + 1 < j < |s| && s[j] == '\n' && forall k | i + 1 < k < j :: s[k] == '\r';
    }
  }

  /** Only a carriage return that was kept can end what was kept. */
  lemma {:induction false} FoldedEnd(s: string, n: nat)
    requires n <= |s|
    ensures var r := FoldedUpTo(s, n);
            r != "" && r[|r| - 1] == '\r' ==> n > 0 && s[n - 1] == '\r' && !TouchesLf(s, n - 1)
  {
    if n > 0 && TouchesLf(s, n - 1) {
      FoldedEnd(s, n - 1);
      if n > 1 && s[n - 2] == '\r' {
        TouchesBackwards(s, n - 2);
      }
    }
  }

  lemma {:induction false} FoldedHasNoCrlf(s: string, n: nat)
    requires n <= |s|
    ensures NoCrlf(FoldedUpTo(s, n))
  {
    if n > 0 {
      FoldedHasNoCrlf(s, n - 1);
      FoldedEnd(s, n - 1);
      if s[n - 1] == '\n' && n > 1 && s[n - 2] == '\r' {
        TouchesBackwards(s, n - 2);
      }
    }
  }

  lemma {:induction false} TouchIsCrlf(s: string, i: nat)
    requires i < |s| && TouchesLf(s, i)
    ensures !NoCrlf(s)
  {
    var j :| i < j < |s| && s[j] == '\n' && forall k | i < k < j :: s[k] == '\r';
    assert s[j - 1] == '\r';
  }

  /** Folding changes nothing exactly when no line ending holds a CR. */
  lemma {:induction false} FoldedOfNoCrlf(s: string)
    ensures Folded(s) == s <==> NoCrlf(s)
  {
    FoldedHasNoCrlf(s, |s|);
    if NoCrlf(s) {
      forall i | 0 <= i < |s|
        ensures !TouchesLf(s, i)
      {
        if TouchesLf(s, i) {
          TouchIsCrlf(s, i);
        }
      }
      FoldedRun(s, 0, |s|);
    }
  }

  lemma {:induction false} FoldedStart(s: string, n: nat)
    requires 0 < n <= |s|
    ensures StartsWithBom(FoldedUpTo(s, n)) <==> StartsWithBom(s)
    ensures FoldedUpTo(s, n) == "" ==> forall i | 0 <= i < n :: s[i] == '\r'
    ensures FoldedUpTo(s, n) == "" ==> TouchesLf(s, n - 1)
  {
    if n > 1 {
      FoldedStart(s, n - 1);
      if FoldedUpTo(s, n - 1) == "" {
        assert s[n - 1] == '\r' || s[n - 1] == '\n' by {
          var j :| n - 2 < j < |s| && s[j] == '\n' && forall k | n - 2 < k < j :: s[k] == '\r';
        }
      }
    }
  }

  /** A text is stored as it is exactly when it is empty, or ends in one line
      feed, holds no CR before an LF, and does not open with a byte-order mark. */
  predicate IsNormal(s: string) {
    s == "" || (|s| > 1 && s[|s| - 1] == '\n' && !IsLineEnd(s[|s| - 2]) && NoCrlf(s) && !StartsWithBom(s))
  }

  lemma {:induction false} NormalIsFixed(s: string)
    ensures Normalized(s) == s <==> IsNormal(s)
  {
    FoldedOfNoCrlf(s);
    if IsNormal(s) && s != "" {
      TrimOneLf(s[..|s| - 1]);
      assert s == s[..|s| - 1] + "\n";
    }
    if Normalized(s) == s && s != "" {
      NormalizedShape(s);
      if StartsWithBom(s) {
        FoldedIsNoLonger(s[1..], |s| - 1);
        FoldedOfNoCrlf(s[1..]);
        TrimShorter(s);
      }
    }
  }

  /** Cutting the line feed off a text that ends in exactly one. */
  lemma {:induction false} TrimOneLf(t: string)
    requires t != "" && !IsLineEnd(t[|t| - 1])
    ensures TrimRight(t + "\n", IsLineEnd) == t
  {
    assert (t + "\n")[..|t|] == t;
  }

  lemma {:induction false} FoldedIsNoLonger(s: string, n: nat)
    requires n <= |s|
    ensures |FoldedUpTo(s, n)| <= n
  {
    if n > 0 {
      FoldedIsNoLonger(s, n - 1);
    }
  }

  /** With a mark taken off, what is left of a text that ends in LF is shorter than it. */
  lemma {:induction false} TrimShorter(s: string)
    requires StartsWithBom(s) && |s| > 1 && s[|s| - 1] == '\n' && NoCrlf(s)
    ensures |Normalized(s)| < |s|
  {
    var u := s[1..];
    assert NoCrlf(u);
    FoldedOfNoCrlf(u);
    assert u[|u| - 1] == '\n';
    assert TrimRight(u, IsLineEnd) == TrimRight(u[..|u| - 1], IsLineEnd);
  }

  lemma {:induction false} NoCrlfOfPrefix(s: string, t: string)
    requires t <= s && NoCrlf(s)
    ensures NoCrlf(t)
  {
  }

  /** No CR before an LF; empty, or ending in exactly one LF. */
  lemma {:induction false} NormalizedShape(raw: string)
    ensures var r := Normalized(raw);
            NoCrlf(r) && (r == "" || (|r| > 1 && r[|r| - 1] == '\n' && !IsLineEnd(r[|r| - 2])))
  {
    var f := Folded(WithoutBom(raw));
    FoldedHasNoCrlf(WithoutBom(raw), |WithoutBom(raw)|);
    NoCrlfOfPrefix(f, TrimRight(f, IsLineEnd));
  }

  /** Normalising what is already normalised changes nothing, except for a text
      that opens with two byte-order marks. */
  lemma {:induction false} NormalizedTwice(raw: string)
    ensures Normalized(Normalized(raw)) == Normalized(raw)
            <==> !(StartsWithBom(raw) && StartsWithBom(raw[1..]))
  {
    var u, r := WithoutBom(raw), Normalized(raw);
    NormalizedShape(raw);
    NormalIsFixed(r);
    if u != "" {
      FoldedStart(u, |u|);
      var f := Folded(u);
      if StartsWithBom(u) {
        assert TrimRight(f, IsLineEnd) != "";
      }
    }
  }
}
