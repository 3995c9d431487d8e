/** Trimming and lower-casing, over ASCII, as the code's normalisers use them. */
module Text {

  predicate IsSpace(c: char) {
    c == ' ' || '\t' <= c <= '\r'
  }

  function TrimLeft(s: string): string {
    if s != "" && IsSpace(s[0]) then TrimLeft(s[1..]) else s
  }

  function TrimRight(s: string): string {
    if s != "" && IsSpace(s[|s| - 1]) then TrimRight(s[..|s| - 1]) else s
  }

  function TrimSpace(s: string): string {
    TrimRight(TrimLeft(s))
  }

  function LowerChar(c: char): char {
    if 'A' <= c <= 'Z' then c - 'A' + 'a' else c
  }

  function ToLower(s: string): string {
    seq(|s|, i requires 0 <= i < |s| => LowerChar(s[i]))
  }

  function Normalize(s: string): string {
    ToLower(TrimSpace(s))
  }

  predicate IsTrimmed(s: string) {
    s == "" || (!IsSpace(s[0]) && !IsSpace(s[|s| - 1]))
  }

  lemma {:induction false} TrimLeftShape(s: string)
    ensures var t := TrimLeft(s); t == "" || !IsSpace(t[0])
  {
    if s != "" && IsSpace(s[0]) { TrimLeftShape(s[1..]); }
  }

  lemma {:induction false} TrimRightShape(s: string)
    requires s == "" || !IsSpace(s[0])
    ensures IsTrimmed(TrimRight(s))
  {
    if s != "" && IsSpace(s[|s| - 1]) { TrimRightShape(s[..|s| - 1]); }
  }

  /** The trimmed strings are exactly the fixed points of trimming. */
  lemma TrimmedIffFixed(s: string)
    ensures IsTrimmed(TrimSpace(s))
    ensures IsTrimmed(s) <==> TrimSpace(s) == s
  {
    TrimLeftShape(s);
    TrimRightShape(TrimLeft(s));
  }

  /** Normalising twice changes nothing, so a normalised keyword passes the check that demands it. */
  lemma NormalizeIdempotent(s: string)
    ensures Normalize(Normalize(s)) == Normalize(s)
  {
    var t := TrimSpace(s);
    TrimmedIffFixed(s);
    assert IsTrimmed(ToLower(t));
    TrimmedIffFixed(ToLower(t));
    assert forall i | 0 <= i < |t| :: LowerChar(LowerChar(t[i])) == LowerChar(t[i]);
  }

  lemma {:induction false} TrimLeftShortens(s: string)
    ensures |TrimLeft(s)| <= |s| && (|TrimLeft(s)| == |s| ==> TrimLeft(s) == s)
  {
    if s != "" && IsSpace(s[0]) { TrimLeftShortens(s[1..]); }
  }

  lemma {:induction false} TrimRightShortens(s: string)
    ensures |TrimRight(s)| <= |s| && (|TrimRight(s)| == |s| ==> TrimRight(s) == s)
  {
    if s != "" && IsSpace(s[|s| - 1]) { TrimRightShortens(s[..|s| - 1]); }
  }

  predicate IsLower(s: string) {
    forall i :: 0 <= i < |s| ==> LowerChar(s[i]) == s[i]
  }

  /** The normal forms are the trimmed strings without upper-case letters. */
  lemma NormalFormMeaning(s: string)
    ensures Normalize(s) == s <==> IsTrimmed(s) && IsLower(s)
  {
    TrimmedIffFixed(s);
    if Normalize(s) == s {
      TrimLeftShortens(s);
      TrimRightShortens(TrimLeft(s));
      assert |ToLower(TrimSpace(s))| == |TrimSpace(s)|;
      forall i | 0 <= i < |s| ensures LowerChar(s[i]) == s[i] { assert ToLower(s)[i] == s[i]; }
    }
  }
}
