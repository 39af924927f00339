/** The C runtime string behaviour the relay relies on: NUL-terminated buffers, sprintf_s with
    "%s" and "%i", strcspn and _strnicmp. Bytes are the C `char` of the wire and the console. */
module CStrings {

  newtype byte = b: int | 0 <= b < 256

  const NUL: byte := 0
  const LF: byte := 10
  const CR: byte := 13

  /** True if `s` can be the contents of a C string: it holds no terminating NUL. */
  predicate NoNul(s: seq<byte>) {
    NUL !in s
  }

  /** The bytes of an ASCII literal. */
  function Ascii(s: string): (r: seq<byte>)
    requires forall i :: 0 <= i < |s| ==> s[i] as int < 128
    ensures |r| == |s|
    ensures forall i :: 0 <= i < |s| ==> r[i] as int == s[i] as int
  {
    seq(|s|, i requires 0 <= i < |s| => s[i] as int as byte)
  }

  /** The string a buffer holds when read as a C string: the bytes before its first NUL, or the
      whole buffer when it holds no NUL. */
  function CStr(buf: seq<byte>): (s: seq<byte>)
    ensures NoNul(s) && |s| <= |buf| && s == buf[..|s|]
    ensures |s| < |buf| ==> buf[|s|] == NUL
    ensures NUL in buf ==> |s| < |buf|
  {
    if |buf| == 0 || buf[0] == NUL then [] else [buf[0]] + CStr(buf[1..])
  }

  /** A string followed by a NUL reads back as that string, whatever follows the NUL. */
  lemma CStrOfTerminated(s: seq<byte>, rest: seq<byte>)
    requires NoNul(s)
    ensures CStr(s + [NUL] + rest) == s
  {
    var buf := s + [NUL] + rest;
    assert buf[..|s|] == s && buf[|s|] == NUL;
  }

  /** A C string ends at its first NUL: whatever follows a NUL is never read. */
  lemma {:induction false} CStrStopsAtNul(s: seq<byte>, rest: seq<byte>)
    ensures CStr(s + [NUL] + rest) == CStr(s)
  {
    if |s| > 0 && s[0] != NUL {
      assert (s + [NUL] + rest)[1..] == s[1..] + [NUL] + rest;
      CStrStopsAtNul(s[1..], rest);
    }
  }

  /** Storing a NUL at an index inside the string, as buffer[k] = 0 does, cuts the string there. */
  lemma CStrTruncate(buf: seq<byte>, k: nat)
    requires k <= |CStr(buf)| && k < |buf|
    ensures CStr(buf[k := NUL]) == CStr(buf)[..k]
  {
    var s := CStr(buf)[..k];
    assert buf[k := NUL] == s + [NUL] + buf[k + 1..];
    CStrOfTerminated(s, buf[k + 1..]);
  }

  /** Reading a C string from a field that another field follows directly: a terminated first
      field gives its own string, and an unterminated one is read whole and followed by the string
      the next field holds. */
  lemma {:induction false} CStrAcross(a: seq<byte>, b: seq<byte>)
    ensures NUL in a ==> CStr(a + b) == CStr(a)
    ensures NUL !in a ==> CStr(a + b) == a + CStr(b)
  {
    if |a| == 0 {
      assert a + b == b;
    } else if a[0] != NUL {
      assert (a + b)[1..] == a[1..] + b;
      CStrAcross(a[1..], b);
    }
  }

  /** A fixed-size char field after sprintf_s(field, cap, "%s", s): the string, its NUL, and the
      remaining bytes (uninitialised in the source, zero here). */
  function Field(s: seq<byte>, cap: nat): (f: seq<byte>)
    requires NoNul(s) && |s| < cap
    ensures |f| == cap && f[..|s|] == s && f[|s|] == NUL
  {
    s + seq(cap - |s|, _ => NUL)
  }

  /** Reading a field back as a C string yields exactly the string written into it, and the field
      is terminated. */
  lemma FieldRoundTrip(s: seq<byte>, cap: nat)
    requires NoNul(s) && |s| < cap
    ensures NUL in Field(s, cap)
    ensures CStr(Field(s, cap)) == s
  {
    var f := Field(s, cap);
    assert f == s + [NUL] + f[|s| + 1..];
    CStrOfTerminated(s, f[|s| + 1..]);
  }

  /** sprintf_s(dst, dst.Length, "%s", s) for a string that fits: the string and its NUL are
      written over the buffer in place and the bytes after the NUL are left as they were. */
  method WriteCString(dst: array<byte>, s: seq<byte>)
    requires NoNul(s) && |s| < dst.Length
    modifies dst
    ensures dst[..|s|] == s && dst[|s|] == NUL
    ensures forall i :: |s| < i < dst.Length ==> dst[i] == old(dst[i])
    ensures NUL in dst[..] && CStr(dst[..]) == s
  {
    forall i | 0 <= i < |s| {
      dst[i] := s[i];
    }
    dst[|s|] := NUL;
    assert dst[..] == s + [NUL] + dst[|s| + 1..];
    CStrOfTerminated(s, dst[|s| + 1..]);
  }

  /** The decimal digits sprintf_s prints for "%i" of a non-negative value: no sign and no
      leading zero. */
  function Decimal(n: nat): (r: seq<byte>)
    ensures 1 <= |r|
    ensures forall i :: 0 <= i < |r| ==> 48 <= r[i] <= 57
    ensures |r| > 1 ==> r[0] != 48
  {
    if n < 10 then [(48 + n) as byte] else Decimal(n / 10) + [(48 + n % 10) as byte]
  }

  /** The value of a string of decimal digits (what atoi would read back). */
  function DigitsValue(s: seq<byte>): int
  {
    if s == [] then 0 else DigitsValue(s[..|s| - 1]) * 10 + (s[|s| - 1] as int - 48)
  }

  /** Printing a number in decimal loses nothing: the digits read back as the number. */
  lemma {:induction false} DecimalRoundTrip(n: nat)
    ensures DigitsValue(Decimal(n)) == n
  {
    if n >= 10 {
      DecimalRoundTrip(n / 10);
      var d := Decimal(n);
      assert d[..|d| - 1] == Decimal(n / 10);
    }
  }

  function Pow10(k: nat): nat
  {
    if k == 0 then 1 else 10 * Pow10(k - 1)
  }

  /** A number below 10^k prints with at most k digits. */
  lemma {:induction false} DecimalLength(n: nat, k: nat)
    requires 1 <= k && n < Pow10(k)
    ensures |Decimal(n)| <= k
  {
    if n >= 10 {
      DecimalLength(n / 10, k - 1);
    }
  }

  /** The index strcspn(s, "\r\n") returns: the first CR or LF, or the length of the string. */
  function LineEnd(s: seq<byte>): (k: nat)
    ensures k <= |s|
    ensures forall i :: 0 <= i < k ==> s[i] != CR && s[i] != LF
    ensures k < |s| ==> s[k] == CR || s[k] == LF
  {
    if |s| == 0 || s[0] == CR || s[0] == LF then 0 else 1 + LineEnd(s[1..])
  }

  /** ASCII case folding, as the C locale's tolower. */
  function ToLower(b: byte): byte
  {
    if 65 <= b <= 90 then b + 32 else b
  }

  /** True if _strnicmp(s, p, |p|) == 0 for a C string `s`: its first |p| bytes equal `p` up to
      case (a shorter `s` meets its NUL first and differs). */
  predicate StartsWithIgnoringCase(s: seq<byte>, p: seq<byte>)
  {
    |s| >= |p| && forall i :: 0 <= i < |p| ==> ToLower(s[i]) == ToLower(p[i])
  }
}
