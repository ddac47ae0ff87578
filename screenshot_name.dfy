/**
 The clean-up of the date string that names a screenshot file: every ':'
 becomes '_', and a trailing ' ' is cut off together with the character
 before it.
 */
module ScreenshotName {

  /** One more than the largest `size_t` value (64-bit). */
  const SizeModulus: int := 0x1_0000_0000_0000_0000

  /** `std::string::substr(0, count)`: at most `count` leading characters. */
  function Prefix(s: string, count: nat): (r: string)
    ensures |r| == if count < |s| then count else |s|
    ensures r <= s
  {
    if count < |s| then s[..count] else s
  }

  /** The date string after the clean-up. The replacement loop keeps every
      character but ':'; a last character ' ' then makes the string its
      prefix of `length() - 2` characters, a `size_t` subtraction that wraps
      for a one-character string, so that " " is kept whole. */
  method SanitiseDate(date: string) returns (r: string)
    requires 0 < |date| < 0x1_0000_0000  // `date[length() - 1]` needs a character; the loop counter is 32 bits
    ensures |r| == if date[|date| - 1] == ' ' && |date| >= 2 then |date| - 2 else |date|
    ensures forall i :: 0 <= i < |r| ==> r[i] == if date[i] == ':' then '_' else date[i]
    ensures ':' !in r
  {
    r := date;
    var i := 0;
    while i < |r|
      invariant 0 <= i <= |r| == |date|
      invariant forall k :: 0 <= k < i ==> r[k] == if date[k] == ':' then '_' else date[k]
      invariant forall k :: i <= k < |r| ==> r[k] == date[k]
    {
      if r[i] == ':' {
        r := r[i := '_'];
      }
      i := i + 1;
    }
    if r[|r| - 1] == ' ' {
      r := Prefix(r, (|r| - 2) % SizeModulus);
    }
  }
}
