/** Strings as the preprocessor sees them when it goes through `c_str()`:
    a std::string may hold NUL characters, but reading it back as a C string
    stops at the first one. */
module CStrings {

  /** The text of `s.c_str()` read as a NUL-terminated string. */
  function CStr(s: string): (r: string)
    ensures r <= s
    ensures '\0' !in r
    ensures |r| < |s| ==> s[|r|] == '\0'
    ensures '\0' !in s ==> r == s
  {
    if s == [] || s[0] == '\0' then "" else [s[0]] + CStr(s[1..])
  }

  /** The character `s.c_str()[i]`: past the last character sits the terminator. */
  function CharAt(s: string, i: nat): (c: char)
    requires i <= |s|
  {
    if i < |s| then s[i] else '\0'
  }

  /** Plain concatenation of strings, with no separator. */
  function Join(parts: seq<string>): string
  {
    if parts == [] then "" else Join(parts[..|parts| - 1]) + parts[|parts| - 1]
  }

  lemma SeqAssoc<T>(a: seq<T>, b: seq<T>, c: seq<T>)
    ensures (a + b) + c == a + (b + c)
  {
  }
}
