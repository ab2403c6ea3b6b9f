/** ASCII case folding: the model's stand-in for JavaScript's String.prototype.toLowerCase. */
module Ascii {

  predicate IsUpper(c: char) {
    'A' <= c <= 'Z'
  }

  /** Maps an upper-case ASCII letter to its lower-case partner and leaves every other character alone. */
  function LowerChar(c: char): (r: char)
    ensures !IsUpper(r)
    ensures IsUpper(c) ==> r as int == c as int + 32
    ensures !IsUpper(c) ==> r == c
  {
    if IsUpper(c) then (c as int + 32) as char else c
  }

  /** The string with every upper-case ASCII letter lowered; its length and all other characters are kept. */
  function Lower(s: string): (r: string)
    ensures |r| == |s|
    ensures forall i :: 0 <= i < |r| ==> !IsUpper(r[i])
    ensures forall i :: 0 <= i < |s| && IsUpper(s[i]) ==> r[i] as int == s[i] as int + 32
    ensures forall i :: 0 <= i < |s| && !IsUpper(s[i]) ==> r[i] == s[i]
  {
    seq(|s|, i requires 0 <= i < |s| => LowerChar(s[i]))
  }

  /** Lowering twice is lowering once, so "equal ignoring case" compares canonical forms. */
  lemma LowerIdempotent(s: string)
    ensures Lower(Lower(s)) == Lower(s)
  {
    var t := Lower(s);
    assert forall i :: 0 <= i < |t| ==> Lower(t)[i] == t[i];
  }
}
