/** Reading back what the C probe writes: JSON strings by section 7 of RFC 8259, and whole records. */
module ProbeReader {
  import opened Common
  import opened CProbe

  function HexValue(b: byte): (value: Option<nat>)
    ensures value.Some? ==> value.value < 16
  {
    if 48 <= b < 58 then Some(b - 48)
    else if 97 <= b < 103 then Some(b - 87)
    else if 65 <= b < 71 then Some(b - 55)
    else None
  }

  function HexPair(high: byte, low: byte): Option<byte>
  {
    if HexValue(high).None? || HexValue(low).None? then None else Some(HexValue(high).value * 16 + HexValue(low).value)
  }

  /** The UTF-8 bytes of a code point of the basic plane; surrogates are not part of this model. */
  function Utf8(code: nat): Option<seq<byte>>
    requires code < 0x10000
  {
    if code < 0x80 then Some([code])
    else if code < 0x800 then Some([0xC0 + code / 64, 0x80 + code % 64])
    else if 0xD800 <= code < 0xE000 then None
    else Some([0xE0 + code / 4096, 0x80 + code / 64 % 64, 0x80 + code % 64])
  }

  /** The byte that a two-character escape stands for. */
  function Unescape(letter: byte): Option<byte>
  {
    if letter == QUOTE || letter == BACKSLASH || letter == 47 then Some(letter)
    else if letter == 98 then Some(8) else if letter == 102 then Some(12) else if letter == 110 then Some(10)
    else if letter == 114 then Some(13) else if letter == 116 then Some(9) else None
  }

  function Prefixed(bytes: seq<byte>, rest: Option<(seq<byte>, seq<byte>)>): Option<(seq<byte>, seq<byte>)>
  {
    if rest.None? then None else Some((bytes + rest.value.0, rest.value.1))
  }

  /** The characters up to the closing quotation mark, decoded, and the input behind it. */
  function DecodeCharacters(s: seq<byte>): Option<(seq<byte>, seq<byte>)>
  {
    if s == [] || s[0] < 0x20 then None
    else if s[0] == QUOTE then Some(([], s[1..]))
    else if s[0] != BACKSLASH then Prefixed([s[0]], DecodeCharacters(s[1..]))
    else if |s| < 2 then None
    else if s[1] == 117 then
      if |s| < 6 || HexPair(s[2], s[3]).None? || HexPair(s[4], s[5]).None? then None
      else
        var code := HexPair(s[2], s[3]).value * 256 + HexPair(s[4], s[5]).value;
        if Utf8(code).None? then None else Prefixed(Utf8(code).value, DecodeCharacters(s[6..]))
    else if Unescape(s[1]).None? then None
    else Prefixed([Unescape(s[1]).value], DecodeCharacters(s[2..]))
  }

  function DecodeString(s: seq<byte>): Option<(seq<byte>, seq<byte>)>
  {
    if s == [] || s[0] != QUOTE then None else DecodeCharacters(s[1..])
  }

  lemma {:induction false} DecodeShort(letter: byte, b: byte, rest: seq<byte>)
    requires letter != 117 && Unescape(letter) == Some(b)
    ensures DecodeCharacters([BACKSLASH, letter] + rest) == Prefixed([b], DecodeCharacters(rest))
  {
    var s := [BACKSLASH, letter] + rest;
    assert s[0] == BACKSLASH && s[1] == letter && s[2..] == rest;
  }

  lemma HexDigits(b: byte)
    ensures HexPair(HexDigit(b / 16), HexDigit(b % 16)) == Some(b) && HexPair(48, 48) == Some(0)
  {
  }

  lemma {:induction false} DecodeHex(b: byte, rest: seq<byte>)
    requires b < 0x80
    ensures DecodeCharacters([BACKSLASH, 117, 48, 48, HexDigit(b / 16), HexDigit(b % 16)] + rest)
         == Prefixed([b], DecodeCharacters(rest))
  {
    HexDigits(b);
    var high, low := HexDigit(b / 16), HexDigit(b % 16);
    hide HexPair, HexDigit;
    var s := [BACKSLASH, 117, 48, 48, high, low] + rest;
    assert s[0] == BACKSLASH && s[1] == 117 && s[2] == 48 && s[3] == 48 && s[4] == high && s[5] == low;
    assert s[6..] == rest;
  }

  lemma {:induction false} DecodePlain(b: byte, rest: seq<byte>)
    requires b >= 0x20 && b != QUOTE && b != BACKSLASH
    ensures DecodeCharacters([b] + rest) == Prefixed([b], DecodeCharacters(rest))
  {
    var s := [b] + rest;
    assert s[0] == b && s[1..] == rest;
  }

  /** Decoding one escaped byte gives the byte back. */
  lemma {:induction false} DecodeOne(b: byte, rest: seq<byte>)
    ensures DecodeCharacters(Escape(b) + rest) == Prefixed([b], DecodeCharacters(rest))
  {
    hide DecodeCharacters, Prefixed, HexDigit;
    if b == QUOTE || b == BACKSLASH {
      DecodeShort(b, b, rest);
    } else if ShortEscape(b).Some? {
      DecodeShort(ShortEscape(b).value, b, rest);
    } else if b < 0x20 {
      DecodeHex(b, rest);
    } else {
      DecodePlain(b, rest);
    }
  }

  lemma {:induction false} EscapeCons(text: seq<byte>)
    requires text != []
    ensures EscapeAll(text) == Escape(text[0]) + EscapeAll(text[1..])
  {
    hide Escape;
    var last := |text| - 1;
    if last > 0 {
      EscapeCons(text[..last]);
      assert text[..last][1..] == text[1..][..last - 1];
      assert Escape(text[0]) + (EscapeAll(text[1..][..last - 1]) + Escape(text[last]))
          == Escape(text[0]) + EscapeAll(text[1..][..last - 1]) + Escape(text[last]);
    } else {
      assert text[..0] == [] && text[1..] == [];
      assert EscapeAll(text) == [] + Escape(text[0]) == Escape(text[0]) + [];
    }
  }

  lemma {:induction false} DecodeClosing(rest: seq<byte>)
    ensures DecodeCharacters(EscapeAll([]) + ([QUOTE] + rest)) == Some(([], rest))
  {
    var closing := [QUOTE] + rest;
    assert EscapeAll([]) + closing == closing && closing[1..] == rest;
  }

  lemma {:induction false} DecodeEscaped(text: seq<byte>, rest: seq<byte>)
    ensures DecodeCharacters(EscapeAll(text) + ([QUOTE] + rest)) == Some((text, rest))
  {
    hide DecodeCharacters, EscapeAll, Escape;
    var closing := [QUOTE] + rest;
    if text == [] {
      DecodeClosing(rest);
    } else {
      EscapeCons(text);
      DecodeEscaped(text[1..], rest);
      var tail := EscapeAll(text[1..]) + closing;
      assert EscapeAll(text) + closing == Escape(text[0]) + tail;
      DecodeOne(text[0], tail);
      assert [text[0]] + text[1..] == text;
    }
  }

  /** String decoding inverts the writer: the decoder stops exactly at the closing quotation mark, whatever
      follows, and returns the text (nothing for NULL). */
  lemma DecodeQuoted(text: Option<CString>, rest: seq<byte>)
    ensures DecodeString(Quoted(text) + rest) == Some((if text.Some? then text.value else [], rest))
  {
    hide DecodeCharacters;
    var t := if text.Some? then text.value else [];
    DecodeEscaped(t, rest);
    assert (Quoted(text) + rest)[1..] == EscapeAll(t) + ([QUOTE] + rest);
  }

  /** The writer emits no control characters. */
  lemma {:induction false} NoControlInEscaped(text: seq<byte>)
    ensures forall b | b in EscapeAll(text) :: b >= 0x20
  {
    if text != [] {
      NoControlInEscaped(text[..|text| - 1]);
      var e := Escape(text[|text| - 1]);
      assert forall b | b in e :: b >= 0x20;
    }
  }

  lemma NoControlInQuoted(text: Option<CString>)
    ensures forall b | b in Quoted(text) :: b >= 0x20
  {
    if text.Some? { NoControlInEscaped(text.value); }
  }

  // --- records -----------------------------------------------------------------------------------

  datatype Fields = Fields(
    hypothesisId: seq<byte>, location: seq<byte>, message: seq<byte>, data: seq<byte>, timestamp: seq<byte>)

  function Expect(s: seq<byte>, prefix: seq<byte>): Option<seq<byte>>
  {
    if prefix <= s then Some(s[|prefix|..]) else None
  }

  /** A member name, a string value and a comma. */
  function ReadMember(s: seq<byte>, name: string): Option<(seq<byte>, seq<byte>)>
    requires forall i | 0 <= i < |name| :: name[i] as int < 128
  {
    var value := Expect(s, Field(name));
    if value.None? then None
    else
      var text := DecodeString(value.value);
      if text.None? then None
      else
        var rest := Expect(text.value.1, [COMMA]);
        if rest.None? then None else Some((text.value.0, rest.value))
  }

  /** The position just after the last colon. */
  function AfterLastColon(s: seq<byte>): nat
    ensures AfterLastColon(s) <= |s|
  {
    if s == [] then 0 else if s[|s| - 1] == 58 then |s| else AfterLastColon(s[..|s| - 1])
  }

  /** The data value and the timestamp of the last two members. */
  function ReadTail(s: seq<byte>): Option<(seq<byte>, seq<byte>)>
  {
    var colon := AfterLastColon(s);
    var tag := |[COMMA] + Field("timestamp")|;
    if colon < tag || |s| < colon + 2 then None
    else Some((s[..colon - tag], s[colon..|s| - 2]))
  }

  function ReadRecord(s: seq<byte>): Option<Fields>
  {
    var s0 := Expect(s, [123]);
    if s0.None? then None else
    var h := ReadMember(s0.value, "hypothesisId");
    if h.None? then None else
    var l := ReadMember(h.value.1, "location");
    if l.None? then None else
    var m := ReadMember(l.value.1, "message");
    if m.None? then None else
    var d := Expect(m.value.1, Field("data"));
    if d.None? then None else
    var t := ReadTail(d.value);
    if t.None? then None else Some(Fields(h.value.0, l.value.0, m.value.0, t.value.0, t.value.1))
  }

  function Text(s: Option<CString>): seq<byte> { if s.Some? then s.value else [] }

  lemma ExpectPrefix(prefix: seq<byte>, rest: seq<byte>)
    ensures Expect(prefix + rest, prefix) == Some(rest)
  {
  }

  lemma ReadMemberBack(name: string, value: Option<CString>, rest: seq<byte>)
    requires forall i | 0 <= i < |name| :: name[i] as int < 128
    ensures ReadMember(Member(name, value) + rest, name) == Some((Text(value), rest))
  {
    hide Quoted, Field, DecodeString;
    var field, after := Field(name), Quoted(value) + ([COMMA] + rest);
    assert Member(name, value) + rest == field + after;
    ExpectPrefix(field, after);
    DecodeQuoted(value, [COMMA] + rest);
    ExpectPrefix([COMMA], rest);
  }

  lemma {:induction false} LastColonAt(front: seq<byte>, back: seq<byte>)
    requires front != [] && front[|front| - 1] == 58 && 58 !in back
    ensures AfterLastColon(front + back) == |front|
  {
    if back == [] {
      assert front + back == front;
    } else {
      var last := |back| - 1;
      assert (front + back)[..|front + back| - 1] == front + back[..last];
      LastColonAt(front, back[..last]);
    }
  }

  lemma ReadTailBack(data: seq<byte>, stamp: seq<byte>)
    requires 58 !in stamp
    ensures ReadTail(data + Tail(stamp)) == Some((data, stamp))
  {
    var tag := [COMMA] + Field("timestamp");
    var front, back := data + tag, stamp + [125] + [LF];
    var s := data + Tail(stamp);
    assert s == front + back;
    assert front[|front| - 1] == 58;
    LastColonAt(front, back);
    assert s[..|data|] == data;
    assert s[|front|..|s| - 2] == stamp;
  }

  /** The number that a row of digits stands for. */
  function ReadDigits(s: seq<byte>): int
  {
    if s == [] then 0 else ReadDigits(s[..|s| - 1]) * 10 + s[|s| - 1] - 48
  }

  /** The number that digits behind an optional minus sign stand for. */
  function ReadInteger(s: seq<byte>): int
  {
    if s != [] && s[0] == 45 then -ReadDigits(s[1..]) else ReadDigits(s)
  }

  lemma {:induction false} DigitsAreTheNumber(n: nat)
    ensures ReadDigits(Decimal(n)) == n
    ensures n >= 10 ==> Decimal(n)[0] != 48
  {
    if n >= 10 {
      DigitsAreTheNumber(n / 10);
      assert Decimal(n)[..|Decimal(n)| - 1] == Decimal(n / 10);
    } else {
      assert Decimal(n)[..0] == [];
    }
  }

  /** The stamp is the time in decimal, without leading zeros. */
  lemma StampIsTheTime(now: int)
    ensures ReadInteger(Lld(now)) == now
    ensures now >= 10 ==> Lld(now)[0] != 48
    ensures now <= -10 ==> Lld(now)[1] != 48
  {
    DigitsAreTheNumber(if now < 0 then -now else now);
    if now < 0 { assert Lld(now)[1..] == Decimal(-now); }
  }

  /** Every byte inside a literal, written out. */
  lemma EscapedBytes(b: byte)
    ensures b == 34 || b == 92 ==> Escape(b) == [92, b]
    ensures Escape(8) == Ascii("\\b") && Escape(9) == Ascii("\\t") && Escape(10) == Ascii("\\n")
    ensures Escape(12) == Ascii("\\f") && Escape(13) == Ascii("\\r")
    ensures b < 8 || b == 11 || 14 <= b < 16 ==>
      Escape(b) == Ascii("\\u000") + [if b < 10 then 48 + b else 87 + b]
    ensures 16 <= b < 32 ==> Escape(b) == Ascii("\\u001") + [if b < 26 then 32 + b else 71 + b]
    ensures b >= 32 && b != 34 && b != 92 ==> Escape(b) == [b]
  {
  }

  /** The order of the members and the record's punctuation, written out: 44 is a comma, 123 and 125 are the
      braces, 10 ends the line. */
  lemma RecordText(h: Option<CString>, l: Option<CString>, m: Option<CString>, data: seq<byte>, stamp: seq<byte>)
    ensures Record(h, l, m, data, stamp)
         == [123] + Field("hypothesisId") + Quoted(h) + [44] + Field("location") + Quoted(l) + [44]
          + Field("message") + Quoted(m) + [44] + Field("data") + data + [44] + Field("timestamp") + stamp + [125, 10]
  {
    hide Quoted, Field;
  }

  /** A member name stands between quotation marks (34) and in front of a colon (58). */
  lemma FieldText(name: string)
    requires forall i | 0 <= i < |name| :: name[i] as int < 128
    ensures Field(name) == [34] + Ascii(name) + [34, 58]
  {
  }

  lemma StampHasNoColon(now: int)
    ensures 58 !in Lld(now) && forall b | b in Lld(now) :: b >= 0x20
  {
  }

  lemma RecordParts(h: Option<CString>, l: Option<CString>, m: Option<CString>, data: seq<byte>, stamp: seq<byte>)
    ensures Record(h, l, m, data, stamp)
         == [123] + (Member("hypothesisId", h) + (Member("location", l) + (Member("message", m)
            + (Field("data") + (data + Tail(stamp))))))
  {
    hide Member, Field, Tail;
  }

  /** A record is read back field by field: the texts, the data value verbatim and the time. */
  lemma RecordRoundTrip(h: Option<CString>, l: Option<CString>, m: Option<CString>, data: seq<byte>, now: int)
    ensures ReadRecord(Record(h, l, m, data, Lld(now))) == Some(Fields(Text(h), Text(l), Text(m), data, Lld(now)))
    ensures ReadInteger(ReadRecord(Record(h, l, m, data, Lld(now))).value.timestamp) == now
  {
    StampIsTheTime(now);
    hide Member, Field, Tail, ReadMember, ReadTail, Lld, Expect, Record, ReadInteger;
    StampHasNoColon(now);
    RecordParts(h, l, m, data, Lld(now));
    var t := data + Tail(Lld(now));
    var d := Field("data") + t;
    var m' := Member("message", m) + d;
    var l' := Member("location", l) + m';
    var h' := Member("hypothesisId", h) + l';
    ExpectPrefix([123], h');
    ReadMemberBack("hypothesisId", h, l');
    ReadMemberBack("location", l, m');
    ReadMemberBack("message", m, d);
    ExpectPrefix(Field("data"), t);
    ReadTailBack(data, Lld(now));
  }

  lemma NoControlInField(name: string)
    requires forall i | 0 <= i < |name| :: 0x20 <= name[i] as int < 128
    ensures forall b | b in Field(name) :: b >= 0x20
  {
  }

  lemma NoControlInMember(name: string, value: Option<CString>)
    requires forall i | 0 <= i < |name| :: 0x20 <= name[i] as int < 128
    ensures forall b | b in Member(name, value) :: b >= 0x20
  {
    hide Quoted, Field;
    NoControlInField(name);
    NoControlInQuoted(value);
  }

  /** An appended record is one line: its only LF, and its only control character, is the last byte. */
  lemma OneLinePerRecord(h: Option<CString>, l: Option<CString>, m: Option<CString>, data: Option<CString>, now: int)
    requires Emitted(h, l, m, data, now).Some?
    ensures var record := Emitted(h, l, m, data, now).value;
            && |record| <= 65536 && record[|record| - 1] == LF
            && forall i | 0 <= i < |record| - 1 :: record[i] >= 0x20
  {
    hide Member, Field, Lld;
    NoControlInMember("hypothesisId", h);
    NoControlInMember("location", l);
    NoControlInMember("message", m);
    NoControlInField("data");
    NoControlInField("timestamp");
    StampHasNoColon(now);
    var front := Head(h, l, m) + data.value + ([COMMA] + Field("timestamp") + Lld(now) + [125]);
    assert Emitted(h, l, m, data, now).value == front + [LF];
    assert forall b | b in data.value :: b >= 0x20;
    assert forall b | b in Head(h, l, m) :: b >= 0x20;
    forall i | 0 <= i < |front| ensures (front + [LF])[i] >= 0x20 { assert front[i] in front; }
  }

  /** The string helper composes safely with `agent_debug_emit`: a text that its storage truncates is always
      dropped, and any record that is appended carries the whole text. */
  lemma TruncatedTextIsDropped(
    text: Option<CString>, h: Option<CString>, l: Option<CString>, m: Option<CString>, now: int, data: CString)
    requires data == JsonStringResult(text)
    ensures data != Quoted(text) ==> Emitted(h, l, m, Some(data), now).None?
    ensures Emitted(h, l, m, Some(data), now).Some? ==>
      var record := Emitted(h, l, m, Some(data), now).value;
      ReadRecord(record).Some? && DecodeString(ReadRecord(record).value.data) == Some((Text(text), []))
  {
    hide ReadRecord, DecodeString, Head, Tail, Lld;
    if |Quoted(text)| <= STORAGE - 1 { assert data == Quoted(text); }
    RecordRoundTrip(h, l, m, data, now);
    DecodeQuoted(text, []);
    assert Quoted(text) + [] == Quoted(text);
  }

  /** What the string helper returns is itself a C string, so it can be passed on. */
  lemma JsonStringIsCString(text: Option<CString>)
    ensures 0 !in JsonStringResult(text)
    ensures !HasControl(JsonStringResult(text))
  {
    hide Quoted;
    NoControlInQuoted(text);
    var data := JsonStringResult(text);
    forall i | 0 <= i < |data| ensures data[i] >= 0x20 { assert Quoted(text)[i] in Quoted(text); }
  }

  function PowerOfTen(digits: nat): nat
  {
    if digits == 0 then 1 else 10 * PowerOfTen(digits - 1)
  }

  lemma {:induction false} DecimalLength(n: nat, digits: nat)
    requires digits >= 1 && n < PowerOfTen(digits)
    ensures |Decimal(n)| <= digits
  {
    if n >= 10 { DecimalLength(n / 10, digits - 1); }
  }

  /** Every 64-bit time fits the 32-byte stamp, terminator included. */
  lemma StampFits(now: int)
    requires -0x8000_0000_0000_0000 <= now < 0x8000_0000_0000_0000
    ensures |Lld(now)| < 32
  {
    assert PowerOfTen(6) == 1_000_000;
    assert PowerOfTen(12) == 1_000_000_000_000;
    assert PowerOfTen(18) == 1_000_000_000_000_000_000;
    assert PowerOfTen(19) == 10_000_000_000_000_000_000;
    DecimalLength(if now < 0 then -now else now, 19);
  }
}
