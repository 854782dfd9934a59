/**
 * ASCII case mapping as Rust's `str::to_ascii_lowercase` performs it: the 26
 * letters 'A'..'Z' become 'a'..'z', every other character is kept as it is.
 */
module Ascii {

  predicate IsUpper(c: char) {
    'A' <= c <= 'Z'
  }

  /** No character of `s` is an upper-case ASCII letter. */
  predicate IsLowercase(s: string) {
    forall i :: 0 <= i < |s| ==> !IsUpper(s[i])
  }

  function LowerChar(c: char): (r: char)
    ensures !IsUpper(r)
    ensures r == c || IsUpper(c)
    ensures IsUpper(c) ==> r as int == c as int + 32
  {
    if IsUpper(c) then (c as int + 32) as char else c
  }

  /** `to_ascii_lowercase`: the character-by-character image of `s` under LowerChar. */
  function ToLowercase(s: string): (r: string)
    ensures |r| == |s|
    ensures forall i :: 0 <= i < |s| ==> r[i] == LowerChar(s[i])
  {
    seq(|s|, i requires 0 <= i < |s| => LowerChar(s[i]))
  }

  /** The result has no upper-case letter, and only letters were changed. */
  lemma ToLowercaseIsLowercase(s: string)
    ensures IsLowercase(ToLowercase(s))
    ensures forall i :: 0 <= i < |s| && !IsUpper(s[i]) ==> ToLowercase(s)[i] == s[i]
  {
  }

  /** A string without upper-case letters is its own lower-case form. */
  lemma LowercaseFixpoint(s: string)
    ensures IsLowercase(s) <==> ToLowercase(s) == s
  {
    if ToLowercase(s) == s {
      ToLowercaseIsLowercase(s);
    }
  }

  /** Lower-casing twice is lower-casing once. */
  lemma ToLowercaseIdempotent(s: string)
    ensures ToLowercase(ToLowercase(s)) == ToLowercase(s)
  {
    ToLowercaseIsLowercase(s);
    LowercaseFixpoint(ToLowercase(s));
  }

  /** Lower-casing works position by position, so it distributes over slicing. */
  lemma ToLowercaseSlice(s: string, i: nat, j: nat)
    requires i <= j <= |s|
    ensures ToLowercase(s[i..j]) == ToLowercase(s)[i..j]
  {
  }
}
