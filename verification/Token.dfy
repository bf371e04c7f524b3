/** Resume tokens: how the gate mints and verifies them. The keyed hash is an arbitrary function. */
module Token {
  import opened Prelude

  type Mac = string -> seq<byte>

  const HEX := "0123456789abcdef"
  const DIGITS := "0123456789"

  function HexEncode(bytes: seq<byte>): string {
    if bytes == [] then [] else [HEX[bytes[0] / 16], HEX[bytes[0] % 16]] + HexEncode(bytes[1..])
  }

  /** Decimal digits, as the verb %d prints them. */
  function Digits(n: nat): string {
    if n < 10 then [DIGITS[n]] else Digits(n / 10) + [DIGITS[n % 10]]
  }

  function Decimal(n: int): string {
    if n < 0 then "-" + Digits(-n) else Digits(n)
  }

  /** Split around every occurrence of `sep`: one part more than there are separators. */
  function Split(s: string, sep: char): (parts: seq<string>)
    ensures |parts| >= 1
  {
    if s == [] then [[]]
    else
      var rest := Split(s[1..], sep);
      if s[0] == sep then [[]] + rest else [[s[0]] + rest[0]] + rest[1..]
  }

  function Sign(mac: Mac, sessionID: int, nonceHex: string): string {
    HexEncode(mac(Decimal(sessionID) + ":" + nonceHex))
  }

  /** The token of a new session. `nonce` is the random source's answer, None when it fails. */
  function Mint(mac: Mac, sessionID: int, nonce: Option<seq<byte>>): string {
    match nonce
    case None => "session:" + Decimal(sessionID)
    case Some(bytes) => HexEncode(bytes) + "." + Sign(mac, sessionID, HexEncode(bytes))
  }

  /** Whether `token` is accepted for the session with this ID and stored token. */
  predicate Verify(mac: Mac, sessionID: int, stored: string, token: string) {
    var parts := Split(token, '.');
    && |parts| == 2
    && parts[1] == Sign(mac, sessionID, parts[0])
    && token == stored
  }

  lemma {:induction false} HexHasNoDot(bytes: seq<byte>)
    ensures '.' !in HexEncode(bytes)
  {
    if bytes != [] { HexHasNoDot(bytes[1..]); }
  }

  lemma {:induction false} DigitsHaveNoDot(n: nat)
    ensures '.' !in Digits(n)
  {
    if n >= 10 { DigitsHaveNoDot(n / 10); }
  }

  /** Splitting is exact: gluing the first two parts gives the string back, for any string with one separator. */
  lemma {:induction false} SplitAtOneDot(a: string, b: string, sep: char)
    requires sep !in a && sep !in b
    ensures Split(b, sep) == [b]
    ensures Split(a + [sep] + b, sep) == [a, b]
  {
    SplitNoSep(b, sep);
    var s := a + [sep] + b;
    if a == [] {
      assert s[1..] == b;
    } else {
      assert s[1..] == a[1..] + [sep] + b;
      SplitAtOneDot(a[1..], b, sep);
      assert [a[0]] + a[1..] == a;
    }
  }

  lemma {:induction false} SplitNoSep(s: string, sep: char)
    requires sep !in s
    ensures Split(s, sep) == [s]
  {
    if s != [] {
      SplitNoSep(s[1..], sep);
      assert [s[0]] + s[1..] == s;
    }
  }

  /** A token minted while the random source works has exactly two parts, and is the one string the gate accepts. */
  lemma MintedTokenAccepted(mac: Mac, sessionID: int, nonce: seq<byte>, token: string)
    ensures var stored := Mint(mac, sessionID, Some(nonce));
            && Split(stored, '.') == [HexEncode(nonce), Sign(mac, sessionID, HexEncode(nonce))]
            && (Verify(mac, sessionID, stored, token) <==> token == stored)
  {
    var nonceHex := HexEncode(nonce);
    HexHasNoDot(nonce);
    HexHasNoDot(mac(Decimal(sessionID) + ":" + nonceHex));
    SplitAtOneDot(nonceHex, Sign(mac, sessionID, nonceHex), '.');
    assert nonceHex + "." + Sign(mac, sessionID, nonceHex) == nonceHex + ['.'] + Sign(mac, sessionID, nonceHex);
  }

  /** A session whose random source failed can never be resumed: no token is accepted for it. */
  lemma FallbackTokenRejected(mac: Mac, sessionID: int, token: string)
    ensures Split(Mint(mac, sessionID, None), '.') == [Mint(mac, sessionID, None)]
    ensures !Verify(mac, sessionID, Mint(mac, sessionID, None), token)
  {
    DigitsHaveNoDot(if sessionID < 0 then -sessionID else sessionID);
    SplitNoSep(Mint(mac, sessionID, None), '.');
  }
}
