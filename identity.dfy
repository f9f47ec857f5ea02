/**
 * The anonymous submitter token (backend/server.py:105-108): the SHA-256
 * digest of the user id followed by the day string YYYYMMDD, as lower-case
 * hex, cut to its first 12 characters. SHA-256 itself is a parameter
 * `hash`, and the day, which the source reads from the UTC clock, is an
 * argument.
 */
module Identity {
  newtype Byte = b: int | 0 <= b < 256

  /** A SHA-256 digest: 32 bytes. */
  type Digest = s: seq<Byte> | |s| == 32 witness seq(32, _ => 0)

  const TOKEN_LENGTH := 12

  predicate IsLowerHex(c: char) {
    '0' <= c <= '9' || 'a' <= c <= 'f'
  }

  predicate IsDigit(c: char) {
    '0' <= c <= '9'
  }

  function HexDigit(v: int): (c: char)
    requires 0 <= v < 16
    ensures IsLowerHex(c)
  {
    if v < 10 then ('0' as int + v) as char else ('a' as int + v - 10) as char
  }

  function HexValue(c: char): (v: int)
    requires IsLowerHex(c)
    ensures 0 <= v < 16 && HexDigit(v) == c
  {
    if c <= '9' then c as int - '0' as int else c as int - 'a' as int + 10
  }

  /** `hexdigest()`: two lower-case hex characters per byte, high nibble first. */
  function ToHex(bytes: seq<Byte>): (h: string)
    ensures |h| == 2 * |bytes|
    ensures forall i :: 0 <= i < |h| ==> IsLowerHex(h[i])
    ensures forall i :: 0 <= i < |bytes| ==>
              h[2 * i] == HexDigit(bytes[i] as int / 16) && h[2 * i + 1] == HexDigit(bytes[i] as int % 16)
  {
    if bytes == [] then ""
    else [HexDigit(bytes[0] as int / 16), HexDigit(bytes[0] as int % 16)] + ToHex(bytes[1..])
  }

  /** Reads a lower-case hex string back into bytes. */
  function FromHex(h: string): seq<Byte>
    requires |h| % 2 == 0
    requires forall i :: 0 <= i < |h| ==> IsLowerHex(h[i])
  {
    if h == [] then []
    else [(16 * HexValue(h[0]) + HexValue(h[1])) as Byte] + FromHex(h[2..])
  }

  /** Hex encoding loses nothing: decoding it gives the bytes back. */
  lemma {:induction false} FromHexToHex(bytes: seq<Byte>)
    ensures FromHex(ToHex(bytes)) == bytes
  {
    if bytes != [] {
      var h := ToHex(bytes);
      assert h[2..] == ToHex(bytes[1..]);
      FromHexToHex(bytes[1..]);
    }
  }

  /** The first 2n hex characters encode exactly the first n bytes. */
  lemma {:induction false} ToHexPrefix(bytes: seq<Byte>, n: nat)
    requires n <= |bytes|
    ensures ToHex(bytes)[..2 * n] == ToHex(bytes[..n])
  {
    if n > 0 {
      ToHexPrefix(bytes[1..], n - 1);
      assert bytes[..n][1..] == bytes[1..][..n - 1];
    }
  }

  /** A calendar day of the UTC clock. */
  datatype Date = Date(year: int, month: int, day: int)

  /** `%Y` prints four digits only for years 1000-9999; `%m` and `%d` are always two. */
  predicate ValidDate(d: Date) {
    1000 <= d.year <= 9999 && 1 <= d.month <= 12 && 1 <= d.day <= 31
  }

  function DigitChar(v: int): (c: char)
    requires 0 <= v < 10
    ensures IsDigit(c)
  {
    ('0' as int + v) as char
  }

  function DigitValue(c: char): (v: nat)
    requires IsDigit(c)
    ensures v < 10 && DigitChar(v) == c
  {
    c as int - '0' as int
  }

  /** The value of a string of decimal digits. */
  function DecimalValue(s: string): nat
    requires forall i :: 0 <= i < |s| ==> IsDigit(s[i])
  {
    if s == [] then 0 else 10 * DecimalValue(s[..|s| - 1]) + DigitValue(s[|s| - 1])
  }

  function TwoDigits(n: int): (s: string)
    requires 0 <= n < 100
    ensures |s| == 2 && IsDigit(s[0]) && IsDigit(s[1])
  {
    [DigitChar(n / 10), DigitChar(n % 10)]
  }

  function FourDigits(n: int): (s: string)
    requires 0 <= n < 10000
    ensures |s| == 4 && forall i :: 0 <= i < 4 ==> IsDigit(s[i])
  {
    TwoDigits(n / 100) + TwoDigits(n % 100)
  }

  /** `strftime("%Y%m%d")`: the daily salt. */
  function DaySalt(d: Date): (salt: string)
    requires ValidDate(d)
    ensures |salt| == 8 && forall i :: 0 <= i < 8 ==> IsDigit(salt[i])
  {
    FourDigits(d.year) + TwoDigits(d.month) + TwoDigits(d.day)
  }

  /** Reads a YYYYMMDD salt back into a date. */
  function ParseSalt(salt: string): Date
    requires |salt| == 8 && forall i :: 0 <= i < 8 ==> IsDigit(salt[i])
  {
    Date(DecimalValue(salt[..4]), DecimalValue(salt[4..6]), DecimalValue(salt[6..]))
  }

  lemma TwoDigitsValue(n: int)
    requires 0 <= n < 100
    ensures DecimalValue(TwoDigits(n)) == n
  {
    var d := TwoDigits(n);
    assert d[..1][..0] == [] && d[..2] == d;
    assert DecimalValue(d[..1]) == n / 10;
  }

  /** Appending one digit shifts the value by one place. */
  lemma DecimalValueSnoc(s: string, c: char)
    requires forall i :: 0 <= i < |s| ==> IsDigit(s[i])
    requires IsDigit(c)
    ensures DecimalValue(s + [c]) == 10 * DecimalValue(s) + DigitValue(c)
  {
    assert (s + [c])[..|s|] == s;
  }

  lemma FourDigitsValue(n: int)
    requires 0 <= n < 10000
    ensures DecimalValue(FourDigits(n)) == n
  {
    var hi, lo := TwoDigits(n / 100), TwoDigits(n % 100);
    TwoDigitsValue(n / 100);
    TwoDigitsValue(n % 100);
    assert hi + lo == (hi + [lo[0]]) + [lo[1]];
    DecimalValueSnoc(hi, lo[0]);
    DecimalValueSnoc(hi + [lo[0]], lo[1]);
    assert DecimalValue(lo) == 10 * DigitValue(lo[0]) + DigitValue(lo[1]) by {
      assert lo == [lo[0]] + [lo[1]];
      DecimalValueSnoc([lo[0]], lo[1]);
      assert [lo[0]] == [] + [lo[0]];
      DecimalValueSnoc([], lo[0]);
    }
  }

  /** The salt determines its day: parsing it gives the date back. */
  lemma ParseDaySalt(d: Date)
    requires ValidDate(d)
    ensures ParseSalt(DaySalt(d)) == d
  {
    var salt := DaySalt(d);
    assert salt[..4] == FourDigits(d.year) && salt[4..6] == TwoDigits(d.month) && salt[6..] == TwoDigits(d.day);
    FourDigitsValue(d.year);
    TwoDigitsValue(d.month);
    TwoDigitsValue(d.day);
  }

  /** Two different days never share a salt. */
  lemma DaySaltInjective(d1: Date, d2: Date)
    requires ValidDate(d1) && ValidDate(d2)
    requires DaySalt(d1) == DaySalt(d2)
    ensures d1 == d2
  {
    ParseDaySalt(d1);
    ParseDaySalt(d2);
  }

  /** The string that is hashed: the user id followed by the salt. */
  function HashInput(uid: string, day: Date): (input: string)
    requires ValidDate(day)
    ensures |input| == |uid| + 8 && input[..|uid|] == uid && input[|uid|..] == DaySalt(day)
  {
    uid + DaySalt(day)
  }

  /** The hashed string determines both the user id and the day, since the salt has a fixed width. */
  lemma HashInputInjective(uid1: string, day1: Date, uid2: string, day2: Date)
    requires ValidDate(day1) && ValidDate(day2)
    requires HashInput(uid1, day1) == HashInput(uid2, day2)
    ensures uid1 == uid2 && day1 == day2
  {
    var s := HashInput(uid1, day1);
    assert |uid1| == |uid2|;
    assert uid1 == s[..|uid1|] == uid2;
    assert DaySalt(day1) == s[|uid1|..] == DaySalt(day2);
    DaySaltInjective(day1, day2);
  }

  /**
   * `generate_anon_token`: always 12 lower-case hex characters, a function of
   * (uid, day) alone.
   */
  function AnonToken(hash: string -> Digest, uid: string, day: Date): (token: string)
    requires ValidDate(day)
    ensures |token| == TOKEN_LENGTH
    ensures forall i :: 0 <= i < |token| ==> IsLowerHex(token[i])
  {
    ToHex(hash(HashInput(uid, day)))[..TOKEN_LENGTH]
  }

  /** The token is exactly the hex form of the digest's first six bytes: nothing else of the digest is kept. */
  lemma TokenIsDigestPrefix(hash: string -> Digest, uid: string, day: Date)
    requires ValidDate(day)
    ensures FromHex(AnonToken(hash, uid, day)) == hash(HashInput(uid, day))[..6]
  {
    var digest := hash(HashInput(uid, day));
    ToHexPrefix(digest, 6);
    FromHexToHex(digest[..6]);
  }
}
