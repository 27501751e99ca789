/** The string helpers the Go code calls, on ASCII text. */
module Text {

  predicate IsSpace(c: char)
  {
    c == ' ' || ('\t' <= c <= '\r')
  }

  function TrimLeft(s: string): string
  {
    if |s| > 0 && IsSpace(s[0]) then TrimLeft(s[1..]) else s
  }

  function TrimRight(s: string): string
  {
    if |s| > 0 && IsSpace(s[|s| - 1]) then TrimRight(s[..|s| - 1]) else s
  }

  function TrimSpace(s: string): string
  {
    TrimRight(TrimLeft(s))
  }

  function Lower(c: char): char
  {
    if 'A' <= c <= 'Z' then (c as int + 32) as char else c
  }

  function ToLower(s: string): (r: string)
    ensures |r| == |s| && forall i | 0 <= i < |s| :: r[i] == Lower(s[i])
  {
    if |s| == 0 then "" else ToLower(s[..|s| - 1]) + [Lower(s[|s| - 1])]
  }

  predicate EqualFold(a: string, b: string)
  {
    ToLower(a) == ToLower(b)
  }

  /** Texts agree up to case if each letter of one is that of the other or its other case. */
  lemma {:induction false} EqualFoldIff(a: string, b: string)
    ensures EqualFold(a, b)
       <==> |a| == |b| && forall i | 0 <= i < |a| :: a[i] == b[i] || IsUpperOf(a[i], b[i]) || IsUpperOf(b[i], a[i])
  {
    if EqualFold(a, b) {
      assert |ToLower(a)| == |ToLower(b)|;
      forall i | 0 <= i < |a| ensures Lower(a[i]) == Lower(b[i]) {
        assert ToLower(a)[i] == ToLower(b)[i];
      }
    }
  }

  /** Written between 'A' and 'Z', 32 places before the small letter. */
  predicate IsUpperOf(c: char, small: char)
  {
    65 <= c as int <= 90 && small as int == c as int + 32
  }
}
