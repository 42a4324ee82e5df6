/** The text form of a datagram and its parser. */
module Parser {
  import opened Packets

  // ---- Searching and reading numbers in text ----

  predicate OccursAt(data: string, pattern: string, at: nat) {
    at + |pattern| <= |data| && data[at..at + |pattern|] == pattern
  }

  /** The first occurrence of a pattern from a position on. */
  function Find(data: string, pattern: string, from: nat): Option<nat>
    decreases |data| - from
  {
    if from + |pattern| > |data| then None
    else if data[from..from + |pattern|] == pattern then Some(from)
    else Find(data, pattern, from + 1)
  }

  /** The search finds an occurrence when there is one, and no earlier one exists. */
  lemma {:induction false} FindsFirst(data: string, pattern: string, from: nat)
    ensures match Find(data, pattern, from)
            case Some(at) => from <= at && OccursAt(data, pattern, at) && forall k :: from <= k < at ==> !OccursAt(data, pattern, k)
            case None => forall k :: from <= k ==> !OccursAt(data, pattern, k)
    decreases |data| - from
  {
    if from + |pattern| <= |data| && !OccursAt(data, pattern, from) {
      FindsFirst(data, pattern, from + 1);
    }
  }

  predicate IsSpace(c: char) {
    c == ' ' || '\t' <= c <= '\r'
  }

  predicate IsDigit(c: char) {
    '0' <= c <= '9'
  }

  predicate AllDigits(s: string) {
    forall k :: 0 <= k < |s| ==> IsDigit(s[k])
  }

  function SkipSpace(s: string): string {
    if s != [] && IsSpace(s[0]) then SkipSpace(s[1..]) else s
  }

  /** The leading digits. */
  function Digits(s: string): string {
    if s != [] && IsDigit(s[0]) then [s[0]] + Digits(s[1..]) else []
  }

  function DecimalValue(s: string): nat
    requires forall k :: 0 <= k < |s| ==> IsDigit(s[k])
  {
    if s == [] then 0
    else
      assert IsDigit(s[|s| - 1]);
      DecimalValue(s[..|s| - 1]) * 10 + (s[|s| - 1] as int - '0' as int)
  }

  lemma {:induction false} DigitsAreDigits(s: string)
    ensures forall k :: 0 <= k < |Digits(s)| ==> IsDigit(Digits(s)[k])
  {
    if s != [] && IsDigit(s[0]) {
      DigitsAreDigits(s[1..]);
    }
  }

  /** The conversion of a text from its first character that is not blank. */
  function Unblanked(t: string): Option<nat> {
    var u := if t != [] && (t[0] == '-' || t[0] == '+') then t[1..] else t;
    DigitsAreDigits(u);
    var v := DecimalValue(Digits(u));
    if Digits(u) == [] || v >= WORD then None
    else if t[0] == '-' then Some((WORD - v) % WORD)
    else Some(v)
  }

  /** The conversion of the source: blanks, a sign, then as many digits as there are; no digit
      or a value beyond 64 bits is an error, and a minus sign wraps around. */
  function Stoull(s: string): Option<nat> {
    Unblanked(SkipSpace(s))
  }

  // ---- The parser ----

  datatype Message = Message(id: nat, payload: string)

  /** The text after a key up to the next semicolon, or to the end. */
  function Field(data: string, start: nat, end: Option<nat>): string
    requires start <= |data|
  {
    match end
    case Some(e) => if start <= e <= |data| then data[start..e] else []
    case None => data[start..]
  }

  /** The field of a key, if the key occurs. */
  function FieldOf(data: string, key: string): Option<string> {
    FindsFirst(data, key, 0);
    match Find(data, key, 0)
    case None => None
    case Some(at) => Some(Field(data, at + |key|, Find(data, ";", at)))
  }

  function ParsePacket(data: string): Option<Message> {
    match FieldOf(data, "id=")
    case None => None
    case Some(text) =>
      match Stoull(text)
      case None => None
      case Some(id) =>
        match FieldOf(data, "payload=")
        case None => Some(Message(id, []))
        case Some(payload) => Some(Message(id, payload))
  }

  /** A payload is a part of the datagram. */
  lemma PayloadFits(data: string)
    ensures ParsePacket(data).Some? ==> |ParsePacket(data).value.payload| <= |data|
  {
    FindsFirst(data, "payload=", 0);
  }

  function DecimalDigit(d: nat): char
    requires d < 10
  {
    '0' + d as char
  }

  function Decimal(n: nat): string {
    if n < 10 then [DecimalDigit(n)] else Decimal(n / 10) + [DecimalDigit(n % 10)]
  }

  lemma {:induction false} DecimalIsValue(n: nat)
    ensures Decimal(n) != [] && forall k :: 0 <= k < |Decimal(n)| ==> IsDigit(Decimal(n)[k])
    ensures DecimalValue(Decimal(n)) == n
  {
    if n >= 10 {
      DecimalIsValue(n / 10);
      assert Decimal(n)[..|Decimal(n)| - 1] == Decimal(n / 10);
    } else {
      assert Decimal(n)[..0] == [];
    }
  }

  lemma {:induction false} DigitsOfNumber(s: string)
    requires forall k :: 0 <= k < |s| ==> IsDigit(s[k])
    ensures Digits(s) == s
  {
    if s == [] {
    } else {
      DigitsOfNumber(s[1..]);
    }
  }

  lemma StoullDecimal(n: nat)
    requires n < WORD
    ensures Stoull(Decimal(n)) == Some(n)
  {
    DecimalIsValue(n);
    DigitsOfNumber(Decimal(n));
    assert IsDigit(Decimal(n)[0]);
    assert SkipSpace(Decimal(n)) == Decimal(n);
  }

  /** The datagram text for an id and a payload. */
  function Datagram(id: nat, payload: string): string {
    "id=" + Decimal(id) + ";payload=" + payload
  }

  /** The parts of a text put together from five pieces. */
  lemma Pieces(data: string, digits: string, payload: string)
    requires data == "id=" + digits + ";payload=" + payload
    ensures var n := |digits|;
            && |data| == n + 12 + |payload|
            && data[..3] == "id=" && data[3..n + 3] == digits && data[n + 3] == ';'
            && data[n + 4..n + 12] == "payload=" && data[n + 12..] == payload
  {
  }

  lemma NoKeyBefore(data: string, digits: string, payload: string)
    requires data == "id=" + digits + ";payload=" + payload
    requires forall k :: 0 <= k < |digits| ==> IsDigit(digits[k])
    ensures forall k :: 0 <= k < |digits| + 4 ==> data[k] != 'p'
  {
    forall k | 0 <= k < |digits| + 4 ensures data[k] != 'p' {
      if 3 <= k < |digits| + 3 {
        assert data[k] == digits[k - 3];
      }
    }
  }

  lemma OneSemicolon(data: string, digits: string, payload: string)
    requires data == "id=" + digits + ";payload=" + payload && ';' !in payload
    requires forall k :: 0 <= k < |digits| ==> IsDigit(digits[k])
    ensures forall k :: 0 <= k < |data| && k != |digits| + 3 ==> data[k] != ';'
  {
    var n := |digits|;
    forall k | 0 <= k < |data| && k != n + 3 ensures data[k] != ';' {
      if k >= n + 12 {
        assert data[k] == payload[k - n - 12];
      } else if k >= n + 4 {
        assert data[k] == ";payload="[k - n - 3];
      } else if k >= 3 {
        assert data[k] == digits[k - 3];
      }
    }
  }

  lemma FindSemicolon(data: string, from: nat, at: nat)
    requires from <= at < |data| && data[at] == ';' && forall k :: from <= k < at ==> data[k] != ';'
    ensures Find(data, ";", from) == Some(at)
  {
    assert OccursAt(data, ";", at);
    forall k | from <= k < at ensures !OccursAt(data, ";", k) {
      assert data[k..k + 1][0] == data[k];
    }
    FindsFirst(data, ";", from);
  }

  lemma NoSemicolon(data: string, from: nat)
    requires forall k :: from <= k < |data| ==> data[k] != ';'
    ensures Find(data, ";", from) == None
  {
    forall k | from <= k ensures !OccursAt(data, ";", k) {
      if k < |data| {
        assert data[k..k + 1][0] == data[k];
      }
    }
    FindsFirst(data, ";", from);
  }

  lemma FindPayload(data: string, at: nat)
    requires OccursAt(data, "payload=", at) && forall k :: 0 <= k < at ==> data[k] != 'p'
    ensures Find(data, "payload=", 0) == Some(at)
  {
    forall k | 0 <= k < at ensures !OccursAt(data, "payload=", k) {
      assert data[k..k + 8][0] == data[k];
    }
    FindsFirst(data, "payload=", 0);
  }

  /** For every 64-bit id and every payload without a semicolon, parsing returns both. */
  lemma ParseRoundTrip(id: nat, payload: string)
    requires id < WORD && ';' !in payload
    ensures ParsePacket(Datagram(id, payload)) == Some(Message(id, payload))
  {
    var digits := Decimal(id);
    var data, n := Datagram(id, payload), |digits|;
    DecimalIsValue(id);
    Pieces(data, digits, payload);
    OneSemicolon(data, digits, payload);
    assert Find(data, "id=", 0) == Some(0) && Find(data, ";", 0) == Some(n + 3) by {
      FindSemicolon(data, 0, n + 3);
    }
    assert Find(data, "payload=", 0) == Some(n + 4) by {
      NoKeyBefore(data, digits, payload);
      FindPayload(data, n + 4);
    }
    StoullDecimal(id);
    NoSemicolon(data, n + 4);
  }

  // ---- What is parsed, for every text ----

  /** `at` is the first place from `from` on where the pattern occurs. */
  ghost predicate FirstFrom(data: string, pattern: string, from: nat, at: nat) {
    from <= at && OccursAt(data, pattern, at) && forall k :: from <= k < at ==> !OccursAt(data, pattern, k)
  }

  /** Where the field that starts at `at` ends: at the next semicolon, or with the text. */
  ghost predicate FieldEnd(data: string, at: nat, end: nat) {
    FirstFrom(data, ";", at, end) || (end == |data| && forall k :: at <= k ==> !OccursAt(data, ";", k))
  }

  /** The text of a key's field: what follows its first occurrence, up to the field's end. */
  ghost predicate FieldText(data: string, key: string, text: string) {
    exists at: nat, end: nat :: FirstFrom(data, key, 0, at) && FieldEnd(data, at, end)
                                && at + |key| <= end <= |data| && text == data[at + |key|..end]
  }

  lemma FindIsFirst(data: string, pattern: string, from: nat, at: nat)
    requires FirstFrom(data, pattern, from, at)
    ensures Find(data, pattern, from) == Some(at)
  {
    FindsFirst(data, pattern, from);
  }

  lemma FieldFound(data: string, key: string, at: nat, end: nat)
    requires FirstFrom(data, key, 0, at) && FieldEnd(data, at, end) && at + |key| <= end <= |data|
    ensures Find(data, key, 0) == Some(at) && Field(data, at + |key|, Find(data, ";", at)) == data[at + |key|..end]
  {
    FindIsFirst(data, key, 0, at);
    FindsFirst(data, ";", at);
    if FirstFrom(data, ";", at, end) {
      FindIsFirst(data, ";", at, end);
    } else {
      assert data[at + |key|..end] == data[at + |key|..];
    }
  }

  /** A key without a semicolon that occurs has a field. */
  lemma FieldExists(data: string, key: string) returns (at: nat, end: nat)
    requires Find(data, key, 0).Some? && forall k :: 0 <= k < |key| ==> key[k] != ';'
    ensures FirstFrom(data, key, 0, at) && FieldEnd(data, at, end) && at + |key| <= end <= |data|
    ensures at == Find(data, key, 0).value
  {
    FindsFirst(data, key, 0);
    at := Find(data, key, 0).value;
    FindsFirst(data, ";", at);
    if Find(data, ";", at).Some? {
      end := Find(data, ";", at).value;
      assert data[end..end + 1][0] == data[end];
      assert end < at + |key| ==> data[at..at + |key|][end - at] == data[end];
    } else {
      end := |data|;
    }
  }

  lemma FieldIsText(data: string, key: string)
    requires forall k :: 0 <= k < |key| ==> key[k] != ';'
    ensures FieldOf(data, key).Some? ==> FieldText(data, key, FieldOf(data, key).value)
    ensures FieldOf(data, key).Some? <==> exists at: nat :: OccursAt(data, key, at)
  {
    FindsFirst(data, key, 0);
    if FieldOf(data, key).Some? {
      var at, end := FieldExists(data, key);
      FieldFound(data, key, at, end);
    }
  }

  lemma TextIsField(data: string, key: string, text: string)
    requires FieldText(data, key, text)
    ensures FieldOf(data, key) == Some(text)
  {
    var at: nat, end: nat :| FirstFrom(data, key, 0, at) && FieldEnd(data, at, end)
                             && at + |key| <= end <= |data| && text == data[at + |key|..end];
    FieldFound(data, key, at, end);
  }

  /** For every text: it is accepted if and only if it has an `id=` field that reads as a
      number, which is then the id; the payload is the `payload=` field, or empty if there is
      none. */
  lemma ParseSays(data: string, id: nat, payload: string)
    ensures ParsePacket(data) == Some(Message(id, payload))
            <==> && (exists text :: FieldText(data, "id=", text) && Stoull(text) == Some(id))
                 && (if exists at: nat :: OccursAt(data, "payload=", at) then FieldText(data, "payload=", payload)
                     else payload == [])
  {
    KeysHaveNoSemicolon();
    FieldIsText(data, "id=");
    FieldIsText(data, "payload=");
    forall text | FieldText(data, "id=", text) ensures FieldOf(data, "id=") == Some(text) {
      TextIsField(data, "id=", text);
    }
    if FieldText(data, "payload=", payload) {
      TextIsField(data, "payload=", payload);
    }
  }

  lemma KeysHaveNoSemicolon()
    ensures forall k :: 0 <= k < |"id="| ==> "id="[k] != ';'
    ensures forall k :: 0 <= k < |"payload="| ==> "payload="[k] != ';'
  {
  }

  lemma SemicolonFirst(data: string, from: nat, at: nat)
    requires from <= at < |data| && data[at] == ';' && forall k :: from <= k < at ==> data[k] != ';'
    ensures FirstFrom(data, ";", from, at)
  {
    FindSemicolon(data, from, at);
    FindsFirst(data, ";", from);
  }

  /** A text that begins with a datagram, and goes on with a further field. */
  lemma ContinuedFields(data: string, digits: string, payload: string, more: string)
    requires data == "id=" + digits + ";payload=" + payload + (";" + more) && ';' !in payload && AllDigits(digits)
    ensures FieldText(data, "id=", digits) && FieldText(data, "payload=", payload)
  {
    var base, n := "id=" + digits + ";payload=" + payload, |digits|;
    var m := |base|;
    Pieces(base, digits, payload);
    OneSemicolon(base, digits, payload);
    NoKeyBefore(base, digits, payload);
    assert data[..m] == base && data[m] == ';';
    assert forall k :: 0 <= k < m ==> data[k] == base[k];
    ContinuedId(data, digits);
    ContinuedPayload(data, n, m);
    assert data[n + 12..m] == payload;
  }

  lemma ContinuedId(data: string, digits: string)
    requires |digits| + 3 < |data| && data[..3] == "id=" && data[3..|digits| + 3] == digits
    requires data[|digits| + 3] == ';' && forall k :: 0 <= k < |digits| + 3 ==> data[k] != ';'
    ensures FieldText(data, "id=", digits)
  {
    SemicolonFirst(data, 0, |digits| + 3);
    assert FirstFrom(data, "id=", 0, 0) && FieldEnd(data, 0, |digits| + 3);
  }

  lemma ContinuedPayload(data: string, n: nat, m: nat)
    requires n + 12 <= m < |data| && data[n + 4..n + 12] == "payload=" && data[m] == ';'
    requires forall k :: 0 <= k < n + 4 ==> data[k] != 'p'
    requires forall k :: n + 4 <= k < m ==> data[k] != ';'
    ensures FieldText(data, "payload=", data[n + 12..m])
  {
    FindPayload(data, n + 4);
    FindsFirst(data, "payload=", 0);
    SemicolonFirst(data, n + 4, m);
    assert FirstFrom(data, "payload=", 0, n + 4) && FieldEnd(data, n + 4, m);
  }

  /** A further field after the payload does not change what is parsed. */
  lemma ParseWithMore(id: nat, payload: string, more: string)
    requires id < WORD && ';' !in payload
    ensures ParsePacket(Datagram(id, payload) + (";" + more)) == Some(Message(id, payload))
  {
    var data := Datagram(id, payload) + (";" + more);
    DecimalIsValue(id);
    ContinuedFields(data, Decimal(id), payload, more);
    TextIsField(data, "id=", Decimal(id));
    TextIsField(data, "payload=", payload);
    StoullDecimal(id);
  }

  // ---- Which texts read as which numbers ----

  /** A number with what may stand before and after it. */
  predicate NumberText(blanks: string, sign: string, digits: string, rest: string) {
    && (forall k :: 0 <= k < |blanks| ==> IsSpace(blanks[k]))
    && (sign == "" || sign == "+" || sign == "-")
    && digits != [] && AllDigits(digits)
    && (rest == [] || !IsDigit(rest[0]))
  }

  lemma {:induction false} SkipsBlanks(blanks: string, s: string)
    requires (forall k :: 0 <= k < |blanks| ==> IsSpace(blanks[k])) && (s == [] || !IsSpace(s[0]))
    ensures SkipSpace(blanks + s) == s
  {
    if blanks == [] {
      assert blanks + s == s;
    } else {
      SkipsBlanks(blanks[1..], s);
      assert (blanks + s)[1..] == blanks[1..] + s;
    }
  }

  lemma {:induction false} TakesDigits(digits: string, rest: string)
    requires AllDigits(digits) && (rest == [] || !IsDigit(rest[0]))
    ensures Digits(digits + rest) == digits
  {
    if digits == [] {
      assert digits + rest == rest;
    } else {
      TakesDigits(digits[1..], rest);
      assert (digits + rest)[1..] == digits[1..] + rest;
    }
  }

  /** Blanks before a number and anything after it are ignored; a value of 2^64 or more is an
      error; a minus sign counts back from 2^64. */
  lemma NumberReads(blanks: string, sign: string, digits: string, rest: string)
    requires NumberText(blanks, sign, digits, rest)
    ensures var v := DecimalValue(digits);
            Stoull(blanks + sign + digits + rest)
            == if v >= 0x1_0000_0000_0000_0000 then None
               else if sign == "-" then Some((0x1_0000_0000_0000_0000 - v) % 0x1_0000_0000_0000_0000)
               else Some(v)
  {
    var t := sign + digits + rest;
    assert blanks + sign + digits + rest == blanks + t;
    assert t != [] && !IsSpace(t[0]) by {
      assert t[0] == if sign == "" then digits[0] else sign[0];
      assert IsDigit(digits[0]);
    }
    SkipsBlanks(blanks, t);
    SignedReads(sign, digits, rest);
  }

  lemma SignedReads(sign: string, digits: string, rest: string)
    requires NumberText([], sign, digits, rest)
    ensures var v := DecimalValue(digits);
            Unblanked(sign + digits + rest)
            == if v >= WORD then None else if sign == "-" then Some((WORD - v) % WORD) else Some(v)
  {
    var t := sign + digits + rest;
    assert IsDigit(digits[0]);
    TakesDigits(digits, rest);
    if sign == "" {
      assert t == digits + rest && t[0] == digits[0];
    } else {
      assert t[1..] == digits + rest && t[0] == sign[0];
    }
  }

  lemma {:induction false} BlanksOf(s: string) returns (blanks: string)
    ensures s == blanks + SkipSpace(s) && forall k :: 0 <= k < |blanks| ==> IsSpace(blanks[k])
  {
    if s == [] || !IsSpace(s[0]) {
      blanks := [];
    } else {
      var more := BlanksOf(s[1..]);
      blanks := [s[0]] + more;
    }
  }

  lemma {:induction false} RestOf(s: string) returns (rest: string)
    ensures s == Digits(s) + rest && (rest == [] || !IsDigit(rest[0]))
  {
    if s == [] || !IsDigit(s[0]) {
      rest := s;
    } else {
      rest := RestOf(s[1..]);
    }
  }

  lemma SignedParts(t: string) returns (sign: string, digits: string, rest: string)
    requires Unblanked(t).Some?
    ensures t == sign + digits + rest && NumberText([], sign, digits, rest)
  {
    var u := if t != [] && (t[0] == '-' || t[0] == '+') then t[1..] else t;
    digits := Digits(u);
    DigitsAreDigits(u);
    rest := RestOf(u);
    if t[0] == '-' {
      sign := "-";
      assert t == "-" + u;
    } else if t[0] == '+' {
      sign := "+";
      assert t == "+" + u;
    } else {
      sign := "";
      assert t == "" + u;
    }
    Regroup(sign, digits, rest);
  }

  lemma Regroup(a: string, b: string, c: string)
    ensures a + (b + c) == a + b + c
  {
  }

  /** Only such texts read as a number. */
  lemma OnlyNumbersRead(s: string) returns (blanks: string, sign: string, digits: string, rest: string)
    requires Stoull(s).Some?
    ensures s == blanks + sign + digits + rest && NumberText(blanks, sign, digits, rest)
  {
    blanks := BlanksOf(s);
    sign, digits, rest := SignedParts(SkipSpace(s));
    Regroup(blanks, sign + digits, rest);
    Regroup(blanks, sign, digits);
  }

  function PowerOfTen(n: nat): nat {
    if n == 0 then 1 else 10 * PowerOfTen(n - 1)
  }

  /** Digits have decimal place values: the first of n + 1 digits counts 10^n. */
  lemma {:induction false} PlaceValue(c: char, s: string)
    requires IsDigit(c) && AllDigits(s)
    ensures AllDigits([c] + s)
    ensures DecimalValue([c] + s) == (c as int - '0' as int) * PowerOfTen(|s|) + DecimalValue(s)
  {
    if s == [] {
      assert ([c] + s)[..0] == [];
    } else {
      var init, d, all := s[..|s| - 1], s[|s| - 1], [c] + s;
      PlaceValue(c, init);
      assert all[..|s|] == [c] + init && all[|s|] == d;
      ShiftPlaces(c as int - '0' as int, PowerOfTen(|init|), DecimalValue(init), d as int - '0' as int);
    }
  }

  lemma ShiftPlaces(c: int, power: int, value: int, d: int)
    ensures (c * power + value) * 10 + d == c * (10 * power) + (value * 10 + d)
  {
  }
}
