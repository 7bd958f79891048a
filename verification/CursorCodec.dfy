/**
 The opaque page cursor: "<microseconds>:<id>" in decimal, wrapped in unpadded URL-safe base64
 (sections 3.2 and 5 of RFC 4648). A byte is a character below 256.
 */
module CursorCodec {
  import opened Common
  import opened Keyset

  predicate IsBytes(s: string) {
    forall i :: 0 <= i < |s| ==> s[i] as int < 256
  }

  // ---- base64.RawURLEncoding ----

  function Symbol(v: nat): char
    requires v < 64
  {
    if v < 26 then 'A' + v as char
    else if v < 52 then 'a' + (v - 26) as char
    else if v < 62 then '0' + (v - 52) as char
    else if v == 62 then '-' else '_'
  }

  function Sextet(c: char): (r: Option<nat>)
    ensures r.Some? ==> r.value < 64
  {
    if 'A' <= c <= 'Z' then Some(c as int - 'A' as int)
    else if 'a' <= c <= 'z' then Some(c as int - 'a' as int + 26)
    else if '0' <= c <= '9' then Some(c as int - '0' as int + 52)
    else if c == '-' then Some(62)
    else if c == '_' then Some(63)
    else None
  }

  lemma SextetInvertsSymbol(v: nat)
    requires v < 64
    ensures Sextet(Symbol(v)) == Some(v) && Symbol(v) != '\n' && Symbol(v) != '\r'
  {
  }

  // The alphabet in character codes: A to Z, a to z, 0 to 9, hyphen, underscore.
  lemma AlphabetCodes(v: nat)
    requires v < 64
    ensures Symbol(v) as int == if v < 26 then 65 + v else if v < 52 then 71 + v else if v < 62 then v - 4 else if v == 62 then 45 else 95
  {
  }

  type Sixbit = v: int | 0 <= v < 64

  /** Three bytes make four sextets; a short last group is padded with zero bits and cut. */
  function Sextets(b: string): seq<Sixbit>
    requires IsBytes(b)
  {
    if |b| == 0 then []
    else
      var x0 := b[0] as int * 65536;
      if |b| == 1 then [x0 / 262144, x0 / 4096 % 64]
      else
        var x1 := x0 + b[1] as int * 256;
        if |b| == 2 then [x1 / 262144, x1 / 4096 % 64, x1 / 64 % 64]
        else
          var x := x1 + b[2] as int;
          [x / 262144, x / 4096 % 64, x / 64 % 64, x % 64] + Sextets(b[3..])
  }

  function Symbols(q: seq<Sixbit>): string {
    if q == [] then "" else [Symbol(q[0])] + Symbols(q[1..])
  }

  function Base64(b: string): string
    requires IsBytes(b)
  {
    Symbols(Sextets(b))
  }

  /** The decoder skips line breaks and refuses anything else outside the alphabet. */
  function ReadSymbols(t: string): Option<seq<Sixbit>> {
    if t == "" then Some([])
    else
      match ReadSymbols(t[1..])
      case None => None
      case Some(rest) =>
        if t[0] == '\n' || t[0] == '\r' then Some(rest)
        else if Sextet(t[0]).None? then None
        else Some([Sextet(t[0]).value] + rest)
  }

  /** Bits left over after the last whole byte are dropped unread; a single last symbol is an error. */
  function FromSextets(q: seq<Sixbit>): (r: Option<string>)
    ensures r.Some? ==> IsBytes(r.value)
    ensures r.None? <==> |q| % 4 == 1
  {
    if |q| == 0 then Some("")
    else if |q| == 1 then None
    else
      var x := q[0] as int * 262144 + q[1] as int * 4096;
      if |q| == 2 then Some([(x / 65536) as char])
      else
        var y := x + q[2] as int * 64;
        if |q| == 3 then Some([(y / 65536) as char, (y / 256 % 256) as char])
        else
          var z := y + q[3] as int;
          match FromSextets(q[4..])
          case None => None
          case Some(rest) => Some([(z / 65536) as char, (z / 256 % 256) as char, (z % 256) as char] + rest)
  }

  function FromBase64(t: string): Option<string> {
    match ReadSymbols(t)
    case None => None
    case Some(q) => FromSextets(q)
  }

  lemma {:induction false} SymbolsRoundTrip(q: seq<Sixbit>)
    ensures ReadSymbols(Symbols(q)) == Some(q)
    decreases |q|
  {
    if q != [] {
      SextetInvertsSymbol(q[0]);
      SymbolsRoundTrip(q[1..]);
      assert Symbols(q)[1..] == Symbols(q[1..]);
      assert [q[0]] + q[1..] == q;
    }
  }

  lemma SplitBy64(y: int, k: int, r: int)
    requires y == 64 * k + r && 0 <= r < 64
    ensures y / 64 == k && y % 64 == r
  {
  }

  lemma ShiftTwice(y: nat)
    ensures y / 4096 == y / 64 / 64 && y / 262144 == y / 4096 / 64
  {
  }

  lemma LastSextets(b0: nat, b1: nat, b2: nat)
    requires b0 < 256 && b1 < 256 && b2 < 256
    ensures var x := b0 * 65536 + b1 * 256 + b2;
            && x / 64 == 64 * (16 * b0 + b1 / 16) + (b1 % 16 * 4 + b2 / 64)
            && x / 64 % 64 == b1 % 16 * 4 + b2 / 64 && x % 64 == b2 % 64
  {
    SplitBy64(b0 * 65536 + b1 * 256 + b2, 1024 * b0 + 4 * b1 + b2 / 64, b2 % 64);
    SplitBy64(1024 * b0 + 4 * b1 + b2 / 64, 16 * b0 + b1 / 16, b1 % 16 * 4 + b2 / 64);
  }

  lemma Rejoin(x: nat)
    ensures x / 262144 * 262144 + x / 4096 % 64 * 4096 + x / 64 % 64 * 64 + x % 64 == x
  {
    ShiftTwice(x);
    assert x == 64 * (x / 64) + x % 64;
    assert x / 64 == 64 * (x / 4096) + x / 64 % 64;
    assert x / 4096 == 64 * (x / 262144) + x / 4096 % 64;
  }

  lemma SplitBy256(y: int, k: int, r: int)
    requires y == 256 * k + r && 0 <= r < 256
    ensures y / 256 == k && y % 256 == r
  {
  }

  lemma BytesOf(b0: nat, b1: nat, b2: nat)
    requires b0 < 256 && b1 < 256 && b2 < 256
    ensures var x := b0 * 65536 + b1 * 256 + b2; x / 65536 == b0 && x / 256 % 256 == b1 && x % 256 == b2
  {
    var x := b0 * 65536 + b1 * 256 + b2;
    SplitBy256(x, b0 * 256 + b1, b2);
    SplitBy256(b0 * 256 + b1, b0, b1);
  }

  lemma JoinSextets(b0: nat, b1: nat, b2: nat)
    requires b0 < 256 && b1 < 256 && b2 < 256
    ensures var x := b0 * 65536 + b1 * 256 + b2;
            var z := x / 262144 * 262144 + x / 4096 % 64 * 4096 + x / 64 % 64 * 64 + x % 64;
            z / 65536 == b0 && z / 256 % 256 == b1 && z % 256 == b2
  {
    Rejoin(b0 * 65536 + b1 * 256 + b2);
    BytesOf(b0, b1, b2);
  }

  lemma {:induction false} SextetsRoundTrip(b: string)
    requires IsBytes(b)
    ensures FromSextets(Sextets(b)) == Some(b)
    decreases |b|
  {
    if |b| == 1 {
      OneByte(b);
    } else if |b| == 2 {
      TwoBytes(b);
    } else if |b| >= 3 {
      SextetsRoundTrip(b[3..]);
      SextetsOfThree(b);
      ThreeBytes(b[0] as int, b[1] as int, b[2] as int, b[3..], Sextets(b), Sextets(b[3..]));
      assert b == [b[0], b[1], b[2]] + b[3..];
    }
  }

  lemma SextetsOfThree(b: string)
    requires IsBytes(b) && |b| >= 3
    ensures var x := b[0] as int * 65536 + b[1] as int * 256 + b[2] as int;
            Sextets(b) == [x / 262144, x / 4096 % 64, x / 64 % 64, x % 64] + Sextets(b[3..])
  {
  }

  lemma ThreeBytes(b0: nat, b1: nat, b2: nat, tail: string, q: seq<Sixbit>, rest: seq<Sixbit>)
    requires b0 < 256 && b1 < 256 && b2 < 256
    requires FromSextets(rest) == Some(tail) && |q| == |rest| + 4 && q[4..] == rest
    requires var x := b0 * 65536 + b1 * 256 + b2;
             q[0] == x / 262144 && q[1] == x / 4096 % 64 && q[2] == x / 64 % 64 && q[3] == x % 64
    ensures FromSextets(q) == Some([b0 as char, b1 as char, b2 as char] + tail)
  {
    BytesOf(b0, b1, b2);
    RejoinedReads(q, tail, b0 * 65536 + b1 * 256 + b2, b0, b1, b2);
  }

  lemma RejoinedReads(q: seq<Sixbit>, tail: string, x: nat, b0: nat, b1: nat, b2: nat)
    requires |q| >= 4 && FromSextets(q[4..]) == Some(tail) && b0 < 256 && b1 < 256 && b2 < 256
    requires q[0] == x / 262144 && q[1] == x / 4096 % 64 && q[2] == x / 64 % 64 && q[3] == x % 64
    requires x / 65536 == b0 && x / 256 % 256 == b1 && x % 256 == b2
    ensures FromSextets(q) == Some([b0 as char, b1 as char, b2 as char] + tail)
  {
    Rejoin(x);
    GroupReads(q, tail, x, b0, b1, b2);
  }

  lemma GroupReads(q: seq<Sixbit>, tail: string, z: int, b0: nat, b1: nat, b2: nat)
    requires |q| >= 4 && FromSextets(q[4..]) == Some(tail) && b0 < 256 && b1 < 256 && b2 < 256
    requires z == q[0] as int * 262144 + q[1] as int * 4096 + q[2] as int * 64 + q[3] as int
    requires z / 65536 == b0 && z / 256 % 256 == b1 && z % 256 == b2
    ensures FromSextets(q) == Some([b0 as char, b1 as char, b2 as char] + tail)
  {
    FourSextets(q, tail, z);
  }

  lemma FourSextets(q: seq<Sixbit>, rest: string, z: int)
    requires |q| >= 4 && FromSextets(q[4..]) == Some(rest)
    requires z == q[0] as int * 262144 + q[1] as int * 4096 + q[2] as int * 64 + q[3] as int
    ensures 0 <= z / 65536 < 256
    ensures FromSextets(q) == Some([(z / 65536) as char, (z / 256 % 256) as char, (z % 256) as char] + rest)
  {
  }

  lemma OneByte(b: string)
    requires IsBytes(b) && |b| == 1
    ensures FromSextets(Sextets(b)) == Some(b)
  {
    JoinSextets(b[0] as int, 0, 0);
    LastSextets(b[0] as int, 0, 0);
    assert b == [b[0]];
  }

  lemma TwoBytes(b: string)
    requires IsBytes(b) && |b| == 2
    ensures FromSextets(Sextets(b)) == Some(b)
  {
    JoinSextets(b[0] as int, b[1] as int, 0);
    LastSextets(b[0] as int, b[1] as int, 0);
    assert b == [b[0], b[1]];
  }

  // Decoding inverts encoding on every byte string.
  lemma Base64RoundTrip(b: string)
    requires IsBytes(b)
    ensures FromBase64(Base64(b)) == Some(b)
  {
    SextetsRoundTrip(b);
    SymbolsRoundTrip(Sextets(b));
  }

  // ---- decimal integers ----

  function Digits(n: nat): string {
    (if n < 10 then "" else Digits(n / 10)) + ['0' + (n % 10) as char]
  }

  /** `%d`. */
  function FormatInt(n: int): string {
    if n < 0 then "-" + Digits(-n) else Digits(n)
  }

  predicate IsDigits(s: string) {
    forall i :: 0 <= i < |s| ==> '0' <= s[i] <= '9'
  }

  function DigitsValue(s: string): nat
    requires IsDigits(s)
  {
    if s == "" then 0 else DigitsValue(s[..|s| - 1]) * 10 + (s[|s| - 1] as int - '0' as int)
  }

  /** `strconv.ParseInt(s, 10, 64)`: an optional sign, at least one digit, and a value in range. */
  function ParseInt(s: string): Option<int> {
    var body := if s != "" && (s[0] == '-' || s[0] == '+') then s[1..] else s;
    if body == "" || !IsDigits(body) then None
    else
      var size: int := DigitsValue(body);
      var n := if s[0] == '-' then -size else size;
      if FitsInt64(n) then Some(n) else None
  }

  lemma {:induction false} DigitsRoundTrip(n: nat)
    ensures Digits(n) != "" && IsDigits(Digits(n)) && DigitsValue(Digits(n)) == n
    decreases n
  {
    var d := Digits(n);
    if n >= 10 {
      DigitsRoundTrip(n / 10);
      assert d[..|d| - 1] == Digits(n / 10);
    } else {
      assert d[..|d| - 1] == "";
    }
  }

  lemma ParseUnsigned(s: string)
    requires s != "" && IsDigits(s)
    ensures ParseInt(s) == (if FitsInt64(DigitsValue(s)) then Some(DigitsValue(s)) else None)
    ensures ParseInt("-" + s) == (if FitsInt64(0 - DigitsValue(s) as int) then Some(0 - DigitsValue(s) as int) else None)
  {
    assert ("-" + s)[1..] == s;
    assert '0' <= s[0] <= '9';
  }

  lemma IntRoundTrip(n: int)
    requires FitsInt64(n)
    ensures ParseInt(FormatInt(n)) == Some(n)
    ensures ':' !in FormatInt(n) && IsBytes(FormatInt(n))
  {
    var size := if n < 0 then -n else n;
    DigitsRoundTrip(size);
    ParseUnsigned(Digits(size));
    DigitsPlain(Digits(size));
    MinusPlain(Digits(size));
  }

  lemma MinusPlain(s: string)
    requires ':' !in s && IsBytes(s)
    ensures ':' !in "-" + s && IsBytes("-" + s)
  {
  }

  lemma DigitsPlain(s: string)
    requires IsDigits(s)
    ensures ':' !in s && IsBytes(s)
  {
  }

  // ---- the cursor ----

  /** The index of the first colon, or the length of s. */
  function FirstColon(s: string): (i: nat)
    ensures i <= |s| && ':' !in s[..i]
    ensures i < |s| ==> s[i] == ':'
  {
    if s == "" || s[0] == ':' then 0
    else
      assert s[..1 + FirstColon(s[1..])] == [s[0]] + s[1..][..FirstColon(s[1..])];
      1 + FirstColon(s[1..])
  }

  datatype CursorError = BadBase64 | NoColon | BadTime | BadId

  datatype Result = Ok(cursor: Cursor) | Err(error: CursorError)

  function Payload(c: Cursor): string {
    FormatInt(c.createdAt) + ":" + FormatInt(c.id)
  }

  /** The source prints int64 values; a time whose microseconds do not fit one has no encoding. */
  function Encode(c: Cursor): string
    requires FitsInt64(c.createdAt) && FitsInt64(c.id)
  {
    PayloadIsBytes(c);
    Base64(Payload(c))
  }

  lemma PayloadIsBytes(c: Cursor)
    requires FitsInt64(c.createdAt) && FitsInt64(c.id)
    ensures IsBytes(Payload(c))
  {
    IntRoundTrip(c.createdAt);
    IntRoundTrip(c.id);
    JoinedIsBytes(FormatInt(c.createdAt), FormatInt(c.id));
  }

  lemma JoinedIsBytes(a: string, b: string)
    requires IsBytes(a) && IsBytes(b)
    ensures IsBytes(a + ":" + b)
  {
  }

  /** Splits at the first colon and parses both sides. */
  function ParsePayload(b: string): Result {
    var i := FirstColon(b);
    if i == |b| then Err(NoColon)
    else
      match ParseInt(b[..i])
      case None => Err(BadTime)
      case Some(us) =>
        match ParseInt(b[i + 1..])
        case None => Err(BadId)
        case Some(id) => Ok(Cursor(us, id))
  }

  function DecodeCursor(s: string): Result {
    if s == "" then Ok(FIRST_PAGE)
    else
      match FromBase64(s)
      case None => Err(BadBase64)
      case Some(b) => ParsePayload(b)
  }

  lemma FirstColonAfter(a: string, b: string)
    requires ':' !in a
    ensures FirstColon(a + ":" + b) == |a|
  {
    var s := a + ":" + b;
    var i := FirstColon(s);
    assert s[|a|] == ':';
    assert forall j :: 0 <= j < |a| ==> s[j] == a[j] && a[j] in a;
    assert forall j :: 0 <= j < i ==> s[..i][j] == s[j] && s[..i][j] in s[..i];
  }

  // Decoding inverts encoding for every int64 id and every int64 number of microseconds, so zero
  // cursors stay zero, other cursors stay other, and no cursor encodes as the empty string that
  // asks for the first page.
  lemma CursorRoundTrip(c: Cursor)
    requires FitsInt64(c.createdAt) && FitsInt64(c.id)
    ensures Encode(c) != "" && DecodeCursor(Encode(c)) == Ok(c)
  {
    PayloadIsBytes(c);
    PayloadRoundTrip(c);
    Base64RoundTrip(Payload(c));
    NotEmpty(Payload(c));
  }

  lemma NotEmpty(b: string)
    requires IsBytes(b) && b != ""
    ensures Base64(b) != ""
  {
  }

  lemma PayloadRoundTrip(c: Cursor)
    requires FitsInt64(c.createdAt) && FitsInt64(c.id)
    ensures Payload(c) != "" && ParsePayload(Payload(c)) == Ok(c)
  {
    var a, b := FormatInt(c.createdAt), FormatInt(c.id);
    IntRoundTrip(c.createdAt);
    IntRoundTrip(c.id);
    JoinedParses(a, b, c);
  }

  lemma JoinedParses(a: string, b: string, c: Cursor)
    requires ':' !in a && ParseInt(a) == Some(c.createdAt) && ParseInt(b) == Some(c.id)
    ensures a + ":" + b != "" && ParsePayload(a + ":" + b) == Ok(c)
  {
    var s := a + ":" + b;
    FirstColonAfter(a, b);
    assert s[..|a|] == a && s[|a| + 1..] == b;
  }

  // Whatever text is accepted, the cursor it names has an encoding that names it again.
  lemma AcceptedCursorsReencode(s: string)
    requires DecodeCursor(s).Ok?
    ensures var c := DecodeCursor(s).cursor;
            && FitsInt64(c.createdAt) && FitsInt64(c.id)
            && DecodeCursor(Encode(c)) == Ok(c)
  {
    CursorRoundTrip(DecodeCursor(s).cursor);
  }

  // ---- fixed values, and what is refused ----

  // Test vectors of section 10 of RFC 4648, without their padding.
  lemma VectorF()
    ensures Base64("f") == "Zg"
  {
    assert Sextets("f") == [25, 32];
  }

  lemma VectorFo()
    ensures Base64("fo") == "Zm8"
  {
    assert Sextets("fo") == [25, 38, 60];
  }

  lemma VectorFoo()
    ensures Base64("foo") == "Zm9v"
  {
    assert Sextets("foo") == [25, 38, 61, 47] + Sextets([]);
    assert Sextets("foo") == [25, 38, 61, 47];
  }

  // The cursor at row 0 of the epoch, "0:0".
  lemma EncodesEpoch()
    ensures Encode(Cursor(0, 0)) == "MDow"
  {
    assert Payload(Cursor(0, 0)) == "0:0";
    assert Sextets("0:0") == [12, 3, 40, 48] + Sextets([]);
    assert Sextets("0:0") == [12, 3, 40, 48];
  }

  // Numbers are printed without a plus sign and without leading zeros.
  lemma {:induction false} DigitsStart(n: nat)
    ensures Digits(n) != "" && (Digits(n)[0] == '0' <==> n == 0)
    decreases n
  {
    if n >= 10 {
      DigitsStart(n / 10);
    }
  }

  lemma FormatIntStarts(n: int)
    ensures FormatInt(n) != "" && (FormatInt(n)[0] == '-' <==> n < 0) && (FormatInt(n)[0] == '0' <==> n == 0)
    ensures IsDigits(if n < 0 then FormatInt(n)[1..] else FormatInt(n))
  {
    var size := if n < 0 then -n else n;
    DigitsStart(size);
    DigitsRoundTrip(size);
    assert ("-" + Digits(size))[1..] == Digits(size);
  }

  predicate Foreign(c: char) {
    !('A' <= c <= 'Z') && !('a' <= c <= 'z') && !('0' <= c <= '9') && c != '-' && c != '_' && c != '\n' && c != '\r'
  }

  /** How many characters are not line breaks. */
  function Kept(t: string): nat {
    if t == "" then 0 else (if t[0] == '\n' || t[0] == '\r' then 0 else 1) + Kept(t[1..])
  }

  lemma {:induction false} ReadsUnlessForeign(t: string)
    ensures ReadSymbols(t).None? <==> exists i :: 0 <= i < |t| && Foreign(t[i])
    ensures ReadSymbols(t).Some? ==> |ReadSymbols(t).value| == Kept(t)
    decreases |t|
  {
    if t != "" {
      ReadsUnlessForeign(t[1..]);
      if i :| 0 <= i < |t| && Foreign(t[i]) {
        assert i > 0 ==> t[1..][i - 1] == t[i];
      }
      if i :| 0 <= i < |t| - 1 && Foreign(t[1..][i]) {
        assert t[i + 1] == t[1..][i];
      }
    }
  }

  // A text is refused as base64 exactly when it holds a character outside the alphabet (padding included)
  // that is no line break, or when, line breaks aside, one character is left over after groups of four.
  lemma BadBase64Iff(t: string)
    ensures DecodeCursor(t) == Err(BadBase64) <==> t != "" && ((exists i :: 0 <= i < |t| && Foreign(t[i])) || Kept(t) % 4 == 1)
  {
    ReadsUnlessForeign(t);
  }
}
