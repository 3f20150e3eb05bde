/** Values shared by the whole model: optional values and C strings. */
module Common {

  /** A value that may be absent, for the source's NULL pointers. */
  datatype Option<T> = None | Some(value: T)

  /** The contents of a C string: the characters before its terminating NUL. */
  type CString = s: string | '\0' !in s

  function Min(a: int, b: int): int
  {
    if a < b then a else b
  }

  /** What snprintf keeps of the text `s` in a buffer of n characters plus the NUL. */
  function Truncate(s: CString, n: nat): (r: CString)
    ensures |r| == Min(|s|, n) && r == s[..|r|]
  {
    if |s| <= n then s else s[..n]
  }
}
