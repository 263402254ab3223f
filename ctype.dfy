/** The character classification and case mapping of <ctype.h> in the "C"
    locale, which is what the C++ matcher calls: only the 26 ASCII letters of
    each case are letters, and every other ASCII character (and every byte
    above 0x7F where `char` is unsigned) maps to itself. A byte above 0x7F
    where `char` is signed is undefined behaviour in the source; here it is
    treated as caseless too. */
module CType {

  predicate IsUpper(c: char) { 'A' <= c <= 'Z' }

  predicate IsLower(c: char) { 'a' <= c <= 'z' }

  function ToLower(c: char): (r: char)
    ensures IsUpper(c) ==> IsLower(r) && r as int == c as int + 32
    ensures !IsUpper(c) ==> r == c
  {
    if IsUpper(c) then (c as int + 32) as char else c
  }

  function ToUpper(c: char): (r: char)
    ensures IsLower(c) ==> IsUpper(r) && r as int == c as int - 32
    ensures !IsLower(c) ==> r == c
  {
    if IsLower(c) then (c as int - 32) as char else c
  }

  /** The "C" locale maps no character other than NUL to NUL. */
  lemma ToLowerNul(c: char)
    ensures ToLower(c) == '\0' <==> c == '\0'
  {
  }

  /** Upper case, told apart the way the C# matcher does it: the character is
      its own upper-case form and has a distinct lower-case form. */
  lemma IsUpperByCaseMaps(c: char)
    ensures IsUpper(c) <==> c == ToUpper(c) && ToLower(c) != ToUpper(c)
  {
  }

  /** Lower case, told apart the way the C# matcher does it. */
  lemma IsLowerByCaseMaps(c: char)
    ensures IsLower(c) <==> c == ToLower(c) && ToLower(c) != ToUpper(c)
  {
  }
}
