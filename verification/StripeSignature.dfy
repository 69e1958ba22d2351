/** The Stripe-Signature header: its parser, and the acceptance test of a webhook delivery. */
module StripeSignature {
  import opened Common

  // ------------------------------------------------------------------ strings

  predicate IsSpace(c: char) {
    || '\U{0009}' <= c <= '\U{000D}' || c == ' ' || c == '\U{0085}' || c == '\U{00A0}' || c == '\U{1680}'
    || '\U{2000}' <= c <= '\U{200A}' || c == '\U{2028}' || c == '\U{2029}' || c == '\U{202F}' || c == '\U{205F}'
    || c == '\U{3000}'
  }

  function TrimLeft(s: string): string {
    if s != "" && IsSpace(s[0]) then TrimLeft(s[1..]) else s
  }

  function TrimRight(s: string): string {
    if s != "" && IsSpace(s[|s| - 1]) then TrimRight(s[..|s| - 1]) else s
  }

  function Trim(s: string): string {
    TrimRight(TrimLeft(s))
  }

  // The pieces of a string between its commas; always at least one.
  function Split(s: string): (parts: seq<string>)
    ensures parts != []
  {
    if s == "" then [""]
    else if s[0] == ',' then [""] + Split(s[1..])
    else
      var rest := Split(s[1..]);
      [[s[0]] + rest[0]] + rest[1..]
  }

  function Join(parts: seq<string>): string
    requires parts != []
  {
    if |parts| == 1 then parts[0] else parts[0] + "," + Join(parts[1..])
  }

  // Position of the first '=', or the length of the string.
  function Equals(s: string): (k: nat)
    ensures k <= |s|
    ensures forall i :: 0 <= i < k ==> s[i] != '='
    ensures k < |s| ==> s[k] == '='
  {
    if s == "" || s[0] == '=' then 0 else 1 + Equals(s[1..])
  }

  // ------------------------------------------------------------------ decimal numbers

  const MIN_INT64 := -0x8000_0000_0000_0000
  const MAX_INT64 := 0x7fff_ffff_ffff_ffff

  predicate IsDigit(c: char) {
    '0' <= c <= '9'
  }

  function DigitValue(c: char): nat
    requires IsDigit(c)
  {
    c as int - '0' as int
  }

  function Unsigned(s: string): string {
    if s != "" && (s[0] == '-' || s[0] == '+') then s[1..] else s
  }

  predicate AllDigits(s: string) {
    forall i :: 0 <= i < |s| ==> IsDigit(s[i])
  }

  function DigitsValue(s: string): nat
    requires AllDigits(s)
  {
    if s == "" then 0 else 10 * DigitsValue(s[..|s| - 1]) + DigitValue(s[|s| - 1])
  }

  // strconv.ParseInt in base ten: an optional sign, at least one digit, and a value that fits.
  function ParseInt(s: string): Option<int> {
    var digits := Unsigned(s);
    if digits == "" || !AllDigits(digits) then None
    else
      var n: int := if s[0] == '-' then 0 - DigitsValue(digits) as int else DigitsValue(digits);
      if MIN_INT64 <= n <= MAX_INT64 then Some(n) else None
  }

  function FormatNat(n: nat): (s: string)
    ensures s != "" && forall i :: 0 <= i < |s| ==> IsDigit(s[i])
  {
    if n < 10 then [('0' as int + n) as char] else FormatNat(n / 10) + [('0' as int + n % 10) as char]
  }

  function FormatInt(n: int): string {
    if n < 0 then "-" + FormatNat(-n) else FormatNat(n)
  }

  lemma {:induction false} FormatNatValue(n: nat)
    ensures DigitsValue(FormatNat(n)) == n
  {
    if n >= 10 {
      FormatNatValue(n / 10);
      var s := FormatNat(n);
      assert s[..|s| - 1] == FormatNat(n / 10);
    } else {
      var s := FormatNat(n);
      assert s[..0] == "";
    }
  }

  lemma ParseOfFormat(n: int)
    requires MIN_INT64 <= n <= MAX_INT64
    ensures ParseInt(FormatInt(n)) == Some(n)
  {
    FormatNatValue(if n < 0 then -n else n);
    if n < 0 {
      assert FormatInt(n)[1..] == FormatNat(-n);
    }
  }

  // ------------------------------------------------------------------ the parser

  datatype Fields = Malformed | Fields(timestamp: int, signatures: seq<string>)

  function TakeField(f: Fields, part: string): Fields {
    TakeTrimmed(f, Trim(part))
  }

  function TakeTrimmed(f: Fields, field: string): Fields {
    var k := Equals(field);
    if f.Malformed? || k == |field| then f
    else if field[..k] == "t" then
      match ParseInt(field[k + 1..])
      case None => Malformed
      case Some(n) => f.(timestamp := n)
    else if field[..k] == "v1" then f.(signatures := f.signatures + [field[k + 1..]])
    else f
  }

  function TakeFields(parts: seq<string>): Fields {
    if parts == [] then Fields(0, []) else TakeField(TakeFields(parts[..|parts| - 1]), parts[|parts| - 1])
  }

  function Accepted(f: Fields): Option<(int, seq<string>)> {
    if f.Malformed? || f.timestamp == 0 || f.signatures == [] then None else Some((f.timestamp, f.signatures))
  }

  function ParsedHeader(header: string): Option<(int, seq<string>)> {
    Accepted(TakeFields(Split(header)))
  }

  lemma TakeOne(parts: seq<string>, i: nat)
    requires i < |parts|
    ensures TakeFields(parts[..i + 1]) == TakeTrimmed(TakeFields(parts[..i]), Trim(parts[i]))
  {
    assert parts[..i + 1][..i] == parts[..i];
  }

  // One turn of the parser's loop: the field is split at its first '=', and the switch on its key.
  method TakePart(part: string, ts: int, v1: seq<string>) returns (ok: bool, newTs: int, newV1: seq<string>)
    ensures TakeTrimmed(Fields(ts, v1), Trim(part)) == if ok then Fields(newTs, newV1) else Malformed
  {
    newTs, newV1 := ts, v1;
    var field := Trim(part);
    var k := Equals(field);
    if k == |field| {
      return true, ts, v1;
    }
    if field[..k] == "t" {
      var n := ParseInt(field[k + 1..]);
      if n.None? {
        return false, ts, v1;
      }
      newTs := n.value;
    } else if field[..k] == "v1" {
      newV1 := v1 + [field[k + 1..]];
    }
    ok := true;
  }

  // The loop of the parser. Nothing is an invalid signature.
  method ParseSignature(header: string) returns (r: Option<(int, seq<string>)>)
    ensures r == ParsedHeader(header)
  {
    if header == "" {
      NoFields();
      return None;
    }
    var ts := 0;
    var v1 := [];
    var parts := Split(header);
    for i := 0 to |parts|
      invariant TakeFields(parts[..i]) == Fields(ts, v1)
    {
      TakeOne(parts, i);
      var ok;
      ok, ts, v1 := TakePart(parts[i], ts, v1);
      if !ok {
        MalformedStays(parts, i + 1);
        return None;
      }
    }
    assert parts[..|parts|] == parts;
    if ts == 0 || |v1| == 0 {
      return None;
    }
    return Some((ts, v1));
  }

  lemma NoFields()
    ensures ParsedHeader("") == None
  {
    assert Split("") == [""];
    assert [""][..0] == [];
    assert Trim("") == "" && Equals("") == 0;
  }

  lemma {:induction false} MalformedStays(parts: seq<string>, k: nat)
    requires k <= |parts| && TakeFields(parts[..k]).Malformed?
    ensures TakeFields(parts).Malformed?
    decreases |parts| - k
  {
    if k == |parts| {
      assert parts[..k] == parts;
    } else {
      assert parts[..k + 1][..k] == parts[..k];
      MalformedStays(parts, k + 1);
    }
  }

  // ------------------------------------------------------------------ acceptance of a delivery

  const SIGNATURE_MAX_AGE := 300

  const NANOSECONDS := 1_000_000_000

  function Abs(x: int): int {
    if x < 0 then -x else x
  }

  // `mac` stands for the hex HMAC of a timestamp and the delivered payload under the shared secret;
  // `now` is in nanoseconds. A delivery passes exactly when its header parses, its timestamp is within
  // five minutes of the clock on either side, and one of its signatures is the expected one.
  method VerifySignature(header: string, now: int, mac: int -> string) returns (accepted: bool)
    ensures accepted <==>
              && ParsedHeader(header).Some?
              && Abs(now - ParsedHeader(header).value.0 * NANOSECONDS) <= SIGNATURE_MAX_AGE * NANOSECONDS
              && mac(ParsedHeader(header).value.0) in ParsedHeader(header).value.1
    ensures accepted <==>
              && ParsedHeader(header).Some?
              && -300_000_000_000 <= now - ParsedHeader(header).value.0 * 1_000_000_000 <= 300_000_000_000
              && mac(ParsedHeader(header).value.0) in ParsedHeader(header).value.1
  {
    var parsed := ParseSignature(header);
    if parsed.None? {
      return false;
    }
    var (timestamp, sigs) := parsed.value;
    if Abs(now - timestamp * NANOSECONDS) > SIGNATURE_MAX_AGE * NANOSECONDS {
      return false;
    }
    var expected := mac(timestamp);
    var matched := false;
    for i := 0 to |sigs|
      invariant matched == false && expected !in sigs[..i]
    {
      if sigs[i] == expected {
        matched := true;
        break;
      }
    }
    return matched;
  }

  // ------------------------------------------------------------------ splitting and joining

  predicate CommaFree(s: string) {
    ',' !in s
  }

  lemma {:induction false} SplitPieces(s: string)
    ensures forall i :: 0 <= i < |Split(s)| ==> CommaFree(Split(s)[i])
  {
    if s != "" {
      SplitPieces(s[1..]);
    }
  }

  lemma {:induction false} SplitOfFirst(a: string, rest: string)
    requires CommaFree(a)
    ensures Split(a) == [a]
    ensures Split(a + "," + rest) == [a] + Split(rest)
  {
    var s := a + "," + rest;
    if a == "" {
      assert s[1..] == rest;
    } else {
      SplitOfFirst(a[1..], rest);
      assert s[1..] == a[1..] + "," + rest;
      assert a == [a[0]] + a[1..];
    }
  }

  lemma {:induction false} SplitOfJoin(parts: seq<string>)
    requires parts != [] && forall i :: 0 <= i < |parts| ==> CommaFree(parts[i])
    ensures Split(Join(parts)) == parts
  {
    if |parts| == 1 {
      SplitOfFirst(parts[0], "");
    } else {
      SplitOfJoin(parts[1..]);
      SplitOfFirst(parts[0], Join(parts[1..]));
    }
  }

  // ------------------------------------------------------------------ round trip

  predicate EndsInSpace(s: string) {
    s != "" && IsSpace(s[|s| - 1])
  }

  function SignatureParts(sigs: seq<string>): (parts: seq<string>)
    ensures |parts| == |sigs|
    ensures forall i :: 0 <= i < |sigs| ==> parts[i] == "v1=" + sigs[i]
  {
    seq(|sigs|, i requires 0 <= i < |sigs| => "v1=" + sigs[i])
  }

  // The printed form: t=<timestamp>, then v1=<signature> for each signature.
  function HeaderParts(timestamp: int, sigs: seq<string>): (parts: seq<string>)
    ensures |parts| == 1 + |sigs|
  {
    ["t=" + FormatInt(timestamp)] + SignatureParts(sigs)
  }

  function Print(timestamp: int, sigs: seq<string>): string {
    Join(HeaderParts(timestamp, sigs))
  }

  lemma TrimKeeps(s: string)
    requires s != "" && !IsSpace(s[0]) && !EndsInSpace(s)
    ensures Trim(s) == s
  {
  }

  lemma FieldOf(key: string, value: string)
    requires key != "" && !IsSpace(key[0]) && '=' !in key && !EndsInSpace(value)
    ensures var part := key + "=" + value;
            && Trim(part) == part && Equals(part) == |key|
            && part[..|key|] == key && part[|key| + 1..] == value
  {
    var part := key + "=" + value;
    assert part[0] == key[0];
    TrimKeeps(part);
    assert part[|key|] == '=';
    forall i | 0 <= i < |key| ensures part[i] != '=' {
      assert part[i] == key[i];
    }
  }

  lemma NumberIsPlain(n: int)
    ensures !EndsInSpace(FormatInt(n)) && CommaFree(FormatInt(n))
  {
    var s := FormatInt(n);
    var digits := FormatNat(if n < 0 then -n else n);
    assert s[|s| - 1] == digits[|digits| - 1];
    forall i | 0 <= i < |s| ensures s[i] != ',' {
      if n < 0 && i > 0 {
        assert s[i] == digits[i - 1];
      }
    }
  }

  lemma TakeNext(parts: seq<string>, part: string)
    ensures TakeFields(parts + [part]) == TakeField(TakeFields(parts), part)
  {
    assert (parts + [part])[..|parts|] == parts;
  }

  lemma TakeTimestamp(timestamp: int)
    requires MIN_INT64 <= timestamp <= MAX_INT64
    ensures TakeFields(["t=" + FormatInt(timestamp)]) == Fields(timestamp, [])
  {
    NumberIsPlain(timestamp);
    FieldOf("t", FormatInt(timestamp));
    ParseOfFormat(timestamp);
    assert "t=" == "t" + "=";
    TakeNext([], "t=" + FormatInt(timestamp));
    assert [] + ["t=" + FormatInt(timestamp)] == ["t=" + FormatInt(timestamp)];
  }

  lemma TakeSignature(f: Fields, sig: string)
    requires f.Fields? && !EndsInSpace(sig)
    ensures TakeField(f, "v1=" + sig) == f.(signatures := f.signatures + [sig])
  {
    FieldOf("v1", sig);
    assert "v1=" == "v1" + "=";
  }

  lemma MoreSignatures(parts: seq<string>, sigs: seq<string>)
    requires sigs != []
    ensures parts + SignatureParts(sigs)
            == parts + SignatureParts(sigs[..|sigs| - 1]) + ["v1=" + sigs[|sigs| - 1]]
  {
    assert SignatureParts(sigs) == SignatureParts(sigs[..|sigs| - 1]) + ["v1=" + sigs[|sigs| - 1]];
  }

  lemma TakeOneMore(parts: seq<string>, longer: seq<string>, f: Fields, sig: string)
    requires TakeFields(parts) == f && f.Fields? && !EndsInSpace(sig)
    requires longer == parts + ["v1=" + sig]
    ensures TakeFields(longer) == f.(signatures := f.signatures + [sig])
  {
    TakeNext(parts, "v1=" + sig);
    TakeSignature(f, sig);
  }

  lemma AppendLast<T>(a: seq<T>, b: seq<T>)
    requires b != []
    ensures a + b[..|b| - 1] + [b[|b| - 1]] == a + b
  {
  }

  lemma {:induction false} TakeSignatures(parts: seq<string>, f: Fields, sigs: seq<string>)
    requires TakeFields(parts) == f && f.Fields? && forall i :: 0 <= i < |sigs| ==> !EndsInSpace(sigs[i])
    ensures TakeFields(parts + SignatureParts(sigs)) == f.(signatures := f.signatures + sigs)
    decreases |sigs|
  {
    if sigs == [] {
      assert parts + SignatureParts(sigs) == parts && f.signatures + sigs == f.signatures;
    } else {
      var init, last := sigs[..|sigs| - 1], sigs[|sigs| - 1];
      var shorter := parts + SignatureParts(init);
      TakeSignatures(parts, f, init);
      MoreSignatures(parts, sigs);
      TakeOneMore(shorter, parts + SignatureParts(sigs), f.(signatures := f.signatures + init), last);
      AppendLast(f.signatures, sigs);
    }
  }

  lemma TakePrinted(timestamp: int, sigs: seq<string>)
    requires MIN_INT64 <= timestamp <= MAX_INT64
    requires forall i :: 0 <= i < |sigs| ==> !EndsInSpace(sigs[i])
    ensures TakeFields(HeaderParts(timestamp, sigs)) == Fields(timestamp, sigs)
  {
    TakeTimestamp(timestamp);
    TakeSignatures(["t=" + FormatInt(timestamp)], Fields(timestamp, []), sigs);
    assert [] + sigs == sigs;
  }

  lemma ValueIsClean(field: string, k: nat)
    requires CommaFree(field) && !EndsInSpace(field) && k <= |field|
    ensures k < |field| ==> CommaFree(field[k + 1..]) && !EndsInSpace(field[k + 1..])
  {
    if k < |field| {
      var value := field[k + 1..];
      forall i | 0 <= i < |value| ensures value[i] != ',' {
        assert value[i] == field[k + 1 + i];
      }
    }
  }

  // Whatever a header contains, the signatures read from it have no comma and no trailing space.
  lemma {:induction false} ReadSignaturesAreClean(parts: seq<string>)
    requires forall i :: 0 <= i < |parts| ==> CommaFree(parts[i])
    ensures var f := TakeFields(parts);
            f.Fields? ==> forall i :: 0 <= i < |f.signatures| ==> CommaFree(f.signatures[i]) && !EndsInSpace(f.signatures[i])
  {
    if parts != [] {
      var n := |parts| - 1;
      ReadSignaturesAreClean(parts[..n]);
      TrimIsClean(parts[n]);
      ValueIsClean(Trim(parts[n]), Equals(Trim(parts[n])));
    }
  }

  lemma {:induction false} TrimRightIsClean(s: string)
    ensures !EndsInSpace(TrimRight(s)) && (CommaFree(s) ==> CommaFree(TrimRight(s)))
  {
    if s != "" && IsSpace(s[|s| - 1]) {
      TrimRightIsClean(s[..|s| - 1]);
    }
  }

  lemma {:induction false} TrimLeftIsClean(s: string)
    ensures CommaFree(s) ==> CommaFree(TrimLeft(s))
  {
    if s != "" && IsSpace(s[0]) {
      TrimLeftIsClean(s[1..]);
    }
  }

  lemma TrimIsClean(s: string)
    ensures !EndsInSpace(Trim(s)) && (CommaFree(s) ==> CommaFree(Trim(s)))
  {
    TrimLeftIsClean(s);
    TrimRightIsClean(TrimLeft(s));
  }

  predicate Printable(timestamp: int, sigs: seq<string>) {
    && timestamp != 0 && sigs != []
    && forall i :: 0 <= i < |sigs| ==> CommaFree(sigs[i]) && !EndsInSpace(sigs[i])
  }

  // Parsing the printed form returns the timestamp and the signature list exactly when the timestamp is
  // not zero, there is a signature, and no signature contains a comma or ends in a space.
  lemma RoundTrip(timestamp: int, sigs: seq<string>)
    requires MIN_INT64 <= timestamp <= MAX_INT64
    ensures ParsedHeader(Print(timestamp, sigs)) == Some((timestamp, sigs)) <==> Printable(timestamp, sigs)
  {
    var parts := HeaderParts(timestamp, sigs);
    if Printable(timestamp, sigs) {
      PrintedPartsCommaFree(timestamp, sigs);
      SplitOfJoin(parts);
      TakePrinted(timestamp, sigs);
    } else if ParsedHeader(Print(timestamp, sigs)) == Some((timestamp, sigs)) {
      SplitPieces(Print(timestamp, sigs));
      ReadSignaturesAreClean(Split(Print(timestamp, sigs)));
      assert false;
    }
  }

  lemma PrintedPartsCommaFree(timestamp: int, sigs: seq<string>)
    requires forall i :: 0 <= i < |sigs| ==> CommaFree(sigs[i])
    ensures forall i :: 0 <= i < |HeaderParts(timestamp, sigs)| ==> CommaFree(HeaderParts(timestamp, sigs)[i])
  {
    NumberIsPlain(timestamp);
  }

  // ------------------------------------------------------------------ what does not matter

  // A piece without '=', or with a key other than t and v1.
  predicate Ignored(part: string) {
    var field := Trim(part);
    Equals(field) == |field| || field[..Equals(field)] !in {"t", "v1"}
  }

  lemma {:induction false} IgnoredField(a: seq<string>, u: string, b: seq<string>)
    requires Ignored(u)
    ensures TakeFields(a + [u] + b) == TakeFields(a + b)
  {
    if b == [] {
      TakeNext(a, u);
      assert a + [u] + b == a + [u] && a + b == a;
    } else {
      var init, last := b[..|b| - 1], b[|b| - 1];
      IgnoredField(a, u, init);
      TakeNext(a + [u] + init, last);
      TakeNext(a + init, last);
      assert a + [u] + b == a + [u] + init + [last] && a + b == a + init + [last];
    }
  }

  lemma {:induction false} SameTrimmed(a: seq<string>, b: seq<string>)
    requires |a| == |b| && forall i :: 0 <= i < |a| ==> Trim(a[i]) == Trim(b[i])
    ensures TakeFields(a) == TakeFields(b)
  {
    if a != [] {
      SameTrimmed(a[..|a| - 1], b[..|b| - 1]);
    }
  }

  function Spaced(parts: seq<string>): (r: seq<string>)
    ensures |r| == |parts|
  {
    seq(|parts|, i requires 0 <= i < |parts| => if i == 0 then parts[i] else " " + parts[i])
  }

  ghost predicate AllCommaFree(parts: seq<string>) {
    forall i :: 0 <= i < |parts| ==> CommaFree(parts[i])
  }

  lemma ParsedOfJoin(parts: seq<string>)
    requires parts != [] && AllCommaFree(parts)
    ensures ParsedHeader(Join(parts)) == Accepted(TakeFields(parts))
  {
    SplitOfJoin(parts);
  }

  // Inserting an unknown field anywhere leaves the result unchanged.
  lemma UnknownFieldsIgnored(a: seq<string>, u: string, b: seq<string>)
    requires a + b != [] && Ignored(u) && AllCommaFree(a + [u] + b) && AllCommaFree(a + b)
    ensures ParsedHeader(Join(a + [u] + b)) == ParsedHeader(Join(a + b))
  {
    ParsedOfJoin(a + [u] + b);
    ParsedOfJoin(a + b);
    IgnoredField(a, u, b);
  }

  lemma TrimOfSpaced(s: string)
    ensures Trim(" " + s) == Trim(s)
    ensures CommaFree(s) ==> CommaFree(" " + s)
  {
    assert (" " + s)[1..] == s;
  }

  // So does a space after every comma.
  lemma SpacesIgnored(parts: seq<string>)
    requires parts != [] && AllCommaFree(parts)
    ensures ParsedHeader(Join(Spaced(parts))) == ParsedHeader(Join(parts))
  {
    forall i | 0 <= i < |parts|
      ensures Trim(Spaced(parts)[i]) == Trim(parts[i]) && CommaFree(Spaced(parts)[i])
    {
      TrimOfSpaced(parts[i]);
    }
    ParsedOfJoin(Spaced(parts));
    ParsedOfJoin(parts);
    SameTrimmed(Spaced(parts), parts);
  }

  // ------------------------------------------------------------------ one more field

  // A number is accepted only if it is an optional sign and digits, and fits 64 bits.
  lemma ParsedNumbers(s: string)
    ensures ParseInt(s).Some? ==>
              && -0x8000_0000_0000_0000 <= ParseInt(s).value <= 0x7fff_ffff_ffff_ffff
              && s != "" && IsDigit(s[|s| - 1])
              && forall i :: 0 <= i < |s| ==> '0' <= s[i] <= '9' || (i == 0 && (s[0] == '-' || s[0] == '+'))
  {
    if ParseInt(s).Some? {
      var digits := Unsigned(s);
      assert AllDigits(digits) && digits[|digits| - 1] == s[|s| - 1];
      forall i | 0 <= i < |s| ensures '0' <= s[i] <= '9' || (i == 0 && (s[0] == '-' || s[0] == '+')) {
        if s[0] == '-' || s[0] == '+' {
          assert i > 0 ==> digits[i - 1] == s[i];
        } else {
          assert digits[i] == s[i];
        }
      }
    }
  }

  lemma LastPart(parts: seq<string>, part: string)
    requires AllCommaFree(parts) && parts != [] && CommaFree(part)
    ensures ParsedHeader(Join(parts + [part])) == Accepted(TakeField(TakeFields(parts), part))
    ensures ParsedHeader(Join(parts)) == Accepted(TakeFields(parts))
  {
    ParsedOfJoin(parts + [part]);
    ParsedOfJoin(parts);
    TakeNext(parts, part);
  }

  // A malformed timestamp makes the whole header invalid, wherever it stands.
  lemma MalformedTimestamp(a: seq<string>, value: string, b: seq<string>)
    requires AllCommaFree(a + ["t=" + value] + b) && !EndsInSpace(value) && ParseInt(value) == None
    ensures ParsedHeader(Join(a + ["t=" + value] + b)) == None
  {
    var parts := a + ["t=" + value] + b;
    FieldOf("t", value);
    assert "t=" == "t" + "=";
    TakeNext(a, "t=" + value);
    assert parts[..|a| + 1] == a + ["t=" + value];
    MalformedStays(parts, |a| + 1);
    ParsedOfJoin(parts);
  }

  // A further timestamp replaces the earlier one, and zero makes the header invalid.
  lemma LaterTimestampWins(parts: seq<string>, n: int)
    requires parts != [] && AllCommaFree(parts) && MIN_INT64 <= n <= MAX_INT64 && ParsedHeader(Join(parts)).Some?
    ensures ParsedHeader(Join(parts + ["t=" + FormatInt(n)]))
            == if n == 0 then None else Some((n, ParsedHeader(Join(parts)).value.1))
  {
    NumberIsPlain(n);
    FieldOf("t", FormatInt(n));
    ParseOfFormat(n);
    assert "t=" == "t" + "=";
    LastPart(parts, "t=" + FormatInt(n));
  }

  // A further signature is added at the end of the list.
  lemma LaterSignatureAdded(parts: seq<string>, sig: string)
    requires parts != [] && AllCommaFree(parts) && CommaFree(sig) && !EndsInSpace(sig)
    requires ParsedHeader(Join(parts)).Some?
    ensures var was := ParsedHeader(Join(parts)).value;
            ParsedHeader(Join(parts + ["v1=" + sig])) == Some((was.0, was.1 + [sig]))
  {
    LastPart(parts, "v1=" + sig);
    TakeSignature(TakeFields(parts), sig);
  }
}
