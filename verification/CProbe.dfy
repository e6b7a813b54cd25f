/** The C probe helper: a bounded buffer, a JSON string writer, and the record it appends. */
module CProbe {
  import opened Common

  /** A C string: the bytes before its terminator. */
  type CString = s: seq<byte> | 0 !in s witness []

  const QUOTE: byte := 0x22
  const BACKSLASH: byte := 0x5C
  const STORAGE: nat := 65536 + 4096
  const RECORD_LIMIT: nat := 65536

  function Ascii(s: string): (bytes: seq<byte>)
    requires forall i | 0 <= i < |s| :: s[i] as int < 128
    ensures |bytes| == |s| && forall i | 0 <= i < |s| :: bytes[i] == s[i] as int
  {
    seq(|s|, i requires 0 <= i < |s| => s[i] as int)
  }

  function HexDigit(n: int): byte
    requires 0 <= n < 16
  {
    if n < 10 then 48 + n else 87 + n
  }

  /** The letter of a two-character escape for the control codes that have one. */
  function ShortEscape(code: byte): Option<byte>
  {
    if code == 8 then Some(98) else if code == 9 then Some(116) else if code == 10 then Some(110)
    else if code == 12 then Some(102) else if code == 13 then Some(114) else None
  }

  function Escape(b: byte): seq<byte>
  {
    if b == QUOTE || b == BACKSLASH then [BACKSLASH, b]
    else if ShortEscape(b).Some? then [BACKSLASH, ShortEscape(b).value]
    else if b < 32 then [BACKSLASH, 117, 48, 48, HexDigit(b / 16), HexDigit(b % 16)]
    else [b]
  }

  function EscapeAll(text: seq<byte>): seq<byte>
  {
    if text == [] then [] else EscapeAll(text[..|text| - 1]) + Escape(text[|text| - 1])
  }

  /** The JSON string of a text; NULL is written as the empty string. */
  function Quoted(text: Option<CString>): seq<byte>
  {
    [QUOTE] + (if text.Some? then EscapeAll(text.value) else []) + [QUOTE]
  }

  // --- the bounded buffer ----------------------------------------------------------------------

  class AgentDebugBuffer {
    const buffer: array<byte>
    var length: nat
    const capacity: nat
    var overflow: bool

    ghost predicate Valid()
      reads this
    {
      length <= capacity <= buffer.Length
    }

    ghost function Contents(): seq<byte>
      reads this, buffer
      requires Valid()
    {
      buffer[..length]
    }

    /** The buffer is what is left of an attempt to write all of `wanted`. */
    ghost predicate Wrote(wanted: seq<byte>)
      reads this, buffer
    {
      && Valid()
      && (!overflow ==> Contents() == wanted)
      && (overflow ==> |wanted| > capacity && Contents() <= wanted)
    }

    constructor (storage: array<byte>, capacity: nat)
      requires capacity <= storage.Length
      ensures Valid() && buffer == storage && this.capacity == capacity && Wrote([])
    {
      buffer, length, this.capacity, overflow := storage, 0, capacity, false;
    }

    /** All of `text` or, if it does not fit or an earlier append did not, nothing. */
    method Append(text: seq<byte>, ghost wanted: seq<byte>)
      requires Wrote(wanted)
      modifies this, buffer
      ensures Wrote(wanted + text)
      ensures overflow <==> old(overflow) || old(length) + |text| > capacity
      ensures old(overflow) ==> length == old(length)
      ensures |text| == 1 && overflow && !old(overflow) ==> length == capacity
    {
      if overflow { return; }
      assert 0 <= capacity - length;
      if |text| > capacity - length {
        overflow := true;
        return;
      }
      ghost var before := length;
      for i := 0 to |text|
        invariant length == before && !overflow
        invariant buffer[..before] == wanted
        invariant buffer[before..before + i] == text[..i]
      {
        buffer[length + i] := text[i];
        assert buffer[before..before + i + 1] == buffer[before..before + i] + [text[i]];
      }
      length := length + |text|;
      assert buffer[..length] == buffer[..before] + buffer[before..before + |text|];
    }

    /** When only single characters were written, an overflow means that the buffer is full to the brim. */
    ghost predicate FullOnOverflow()
      reads this
    {
      overflow ==> length == capacity
    }

    /** Writes characters one by one, as the string writer does. */
    method AppendChars(chars: seq<byte>, ghost wanted: seq<byte>)
      requires Wrote(wanted)
      modifies this, buffer
      ensures Wrote(wanted + chars)
      ensures old(FullOnOverflow()) ==> FullOnOverflow()
    {
      assert wanted + chars[..0] == wanted;
      for i := 0 to |chars|
        invariant Wrote(wanted + chars[..i])
        invariant old(FullOnOverflow()) ==> FullOnOverflow()
      {
        Append([chars[i]], wanted + chars[..i]);
        assert wanted + chars[..i + 1] == wanted + chars[..i] + [chars[i]];
      }
      assert chars[..|chars|] == chars;
    }

    /** One pass of the string writer's loop. */
    method WriteCharacter(code: byte, ghost wanted: seq<byte>)
      requires Wrote(wanted)
      modifies this, buffer
      ensures Wrote(wanted + Escape(code))
      ensures old(FullOnOverflow()) ==> FullOnOverflow()
    {
      if code == QUOTE {
        AppendChars([BACKSLASH, QUOTE], wanted);
      } else if code == BACKSLASH {
        AppendChars([BACKSLASH, BACKSLASH], wanted);
      } else if code == 8 || code == 9 || code == 10 || code == 12 || code == 13 {
        var escapes: seq<byte> := [98, 116, 110, 0, 102, 114];  // "btn\0fr"
        AppendChars([BACKSLASH, escapes[code - 8]], wanted);
      } else if code < 32 {
        AppendChars([BACKSLASH, 117, 48, 48, HexDigit((code / 16) % 16), HexDigit(code % 16)], wanted);
      } else {
        AppendChars([code], wanted);
      }
    }

    method WriteString(text: Option<CString>, ghost wanted: seq<byte>)
      requires Wrote(wanted)
      modifies this, buffer
      ensures Wrote(wanted + Quoted(text))
      ensures old(FullOnOverflow()) ==> FullOnOverflow()
    {
      hide Wrote, EscapeAll, Escape;
      Append([QUOTE], wanted);
      ghost var done := wanted + [QUOTE];
      if text.Some? {
        var t := text.value;
        NothingEscaped(done);
        assert t[..0] == [];
        for p := 0 to |t|
          invariant Wrote(done + EscapeAll(t[..p]))
          invariant old(FullOnOverflow()) ==> FullOnOverflow()
        {
          WriteCharacter(t[p], done + EscapeAll(t[..p]));
          OneMoreEscaped(done, t, p);
        }
        assert t[..|t|] == t;
        done := done + EscapeAll(t);
      }
      Append([QUOTE], done);
      assert done + [QUOTE] == wanted + Quoted(text);
    }
  }

  lemma NothingEscaped(done: seq<byte>)
    ensures done + EscapeAll([]) == done
  {
  }

  lemma OneMoreEscaped(done: seq<byte>, t: seq<byte>, p: nat)
    requires p < |t|
    ensures done + EscapeAll(t[..p + 1]) == done + EscapeAll(t[..p]) + Escape(t[p])
  {
    assert t[..p + 1][..p] == t[..p];
  }

  /** What `agent_debug_json_string` returns: the literal, cut off at the size of its static storage. */
  function JsonStringResult(text: Option<CString>): seq<byte>
  {
    Quoted(text)[..Min(|Quoted(text)|, STORAGE - 1)]
  }

  method AgentDebugJsonString(text: Option<CString>) returns (storage: array<byte>, length: nat)
    ensures fresh(storage) && storage.Length == 69632
    ensures length == Min(|Quoted(text)|, 69631) && storage[length] == 0
    ensures storage[..length] == Quoted(text)[..length] == JsonStringResult(text)
  {
    storage := new byte[STORAGE];
    var buf := new AgentDebugBuffer(storage, STORAGE - 1);
    buf.WriteString(text, []);
    assert [] + Quoted(text) == Quoted(text);
    length := buf.length;
    storage[length] := 0;
    assert storage[..length] == Quoted(text)[..length];
  }

  // --- the record --------------------------------------------------------------------------------

  function Decimal(n: nat): (d: seq<byte>)
    ensures |d| > 0 && forall i | 0 <= i < |d| :: 48 <= d[i] < 58
  {
    if n < 10 then [48 + n] else Decimal(n / 10) + [48 + n % 10]
  }

  /** `%lld` of a 64-bit integer. */
  function Lld(n: int): (d: seq<byte>)
    ensures |d| > 0 && forall i | 0 <= i < |d| :: 48 <= d[i] < 58 || d[i] == 45
  {
    if n < 0 then [45] + Decimal(-n) else Decimal(n)
  }

  function Field(name: string): seq<byte>
    requires forall i | 0 <= i < |name| :: name[i] as int < 128
  {
    [QUOTE] + Ascii(name) + [QUOTE] + [58]
  }

  const COMMA: byte := 44

  /** A string member and the comma after it. */
  function Member(name: string, value: Option<CString>): seq<byte>
    requires forall i | 0 <= i < |name| :: name[i] as int < 128
  {
    Field(name) + Quoted(value) + [COMMA]
  }

  function Head(h: Option<CString>, l: Option<CString>, m: Option<CString>): seq<byte>
  {
    [123] + Member("hypothesisId", h) + Member("location", l) + Member("message", m) + Field("data")
  }

  function Tail(stamp: seq<byte>): seq<byte>
  {
    [COMMA] + Field("timestamp") + stamp + [125] + [LF]
  }

  function Record(
    h: Option<CString>, l: Option<CString>, m: Option<CString>, data: seq<byte>, stamp: seq<byte>): seq<byte>
  {
    Head(h, l, m) + data + Tail(stamp)
  }

  predicate HasControl(data: seq<byte>) { exists i | 0 <= i < |data| :: data[i] < 0x20 }

  /** What one call of `agent_debug_emit` appends to the file, if anything. */
  function Emitted(h: Option<CString>, l: Option<CString>, m: Option<CString>, data: Option<CString>, now: int)
    : Option<seq<byte>>
  {
    if data.None? || data.value == [] || HasControl(data.value) then None
    else
      var record := Record(h, l, m, data.value, Lld(now));
      if |record| > RECORD_LIMIT then None else Some(record)
  }

  method AgentDebugEmit(h: Option<CString>, l: Option<CString>, m: Option<CString>, data: Option<CString>, now: int)
    returns (written: Option<seq<byte>>)
    ensures written == Emitted(h, l, m, data, now)
    ensures written.Some? <==>
      && data.Some? && data.value != []
      && (forall i | 0 <= i < |data.value| :: data.value[i] >= 32)
      && |Record(h, l, m, data.value, Lld(now))| <= 65536
    ensures written.Some? ==> written.value == Record(h, l, m, data.value, Lld(now))
  {
    hide Quoted, Field, Lld;
    if data.None? || data.value == [] { return None; }
    for i := 0 to |data.value|
      invariant forall k | 0 <= k < i :: data.value[k] >= 0x20
    {
      if data.value[i] < 0x20 { return None; }
    }
    var storage := new byte[STORAGE];
    var buf := new AgentDebugBuffer(storage, STORAGE);
    var stamp := Lld(now);
    WriteHead(buf, h, l, m);
    ghost var head := Head(h, l, m);
    buf.Append(data.value, head);
    WriteTail(buf, stamp, head + data.value);
    if buf.overflow || buf.length > RECORD_LIMIT { return None; }
    return Some(storage[..buf.length]);
  }

  method WriteHead(buf: AgentDebugBuffer, h: Option<CString>, l: Option<CString>, m: Option<CString>)
    requires buf.Wrote([])
    modifies buf, buf.buffer
    ensures buf.Wrote(Head(h, l, m))
  {
    hide Member, Field;
    WriteScope(buf, h, l);
    ghost var scope := [123] + Member("hypothesisId", h) + Member("location", l);
    WriteMember(buf, "message", m, scope);
    WriteName(buf, "data", scope + Member("message", m));
  }

  /** The opening brace and the first two members. */
  method WriteScope(buf: AgentDebugBuffer, h: Option<CString>, l: Option<CString>)
    requires buf.Wrote([])
    modifies buf, buf.buffer
    ensures buf.Wrote([123] + Member("hypothesisId", h) + Member("location", l))
  {
    assert [] + [123] == [123 as byte];
    hide *;
    buf.Append([123], []);
    WriteMember(buf, "hypothesisId", h, [123]);
    WriteMember(buf, "location", l, [123] + Member("hypothesisId", h));
  }

  method WriteMember(buf: AgentDebugBuffer, name: string, value: Option<CString>, ghost before: seq<byte>)
    requires forall i | 0 <= i < |name| :: 93 <= name[i] as int < 128 || 65 <= name[i] as int < 91
    requires buf.Wrote(before)
    modifies buf, buf.buffer
    ensures buf.Wrote(before + Member(name, value))
  {
    assert before + Member(name, value) == before + Field(name) + Quoted(value) + [COMMA];
    hide *;
    WriteName(buf, name, before);
    buf.WriteString(value, before + Field(name));
    buf.Append([COMMA], before + Field(name) + Quoted(value));
  }

  method WriteTail(buf: AgentDebugBuffer, stamp: seq<byte>, ghost before: seq<byte>)
    requires buf.Wrote(before)
    modifies buf, buf.buffer
    ensures buf.Wrote(before + Tail(stamp))
  {
    hide Field;
    ghost var w := before;
    buf.Append([COMMA], w);
    w := w + [COMMA];
    WriteName(buf, "timestamp", w);
    w := w + Field("timestamp");
    buf.Append(stamp, w);
    w := w + stamp;
    buf.Append([125], w);
    w := w + [125];
    buf.Append([LF], w);
    w := w + [LF];
    assert w == before + Tail(stamp);
  }

  /** A member name made of letters, written by the string writer, and its colon. */
  method WriteName(buf: AgentDebugBuffer, name: string, ghost before: seq<byte>)
    requires forall i | 0 <= i < |name| :: 93 <= name[i] as int < 128 || 65 <= name[i] as int < 91
    requires buf.Wrote(before)
    modifies buf, buf.buffer
    ensures buf.Wrote(before + Field(name))
  {
    var text: CString := Ascii(name);
    PlainTextIsItself(text);
    buf.WriteString(Some(text), before);
    buf.Append([58], before + Quoted(Some(text)));
    assert before + Quoted(Some(text)) + [58] == before + Field(name);
  }

  predicate Plain(b: byte) { b >= 32 && b != QUOTE && b != BACKSLASH }

  lemma PlainEscape(b: byte)
    requires Plain(b)
    ensures Escape(b) == [b]
  {
  }

  lemma {:induction false} PlainTextIsItself(text: seq<byte>)
    requires forall i | 0 <= i < |text| :: Plain(text[i])
    ensures EscapeAll(text) == text
  {
    hide Escape;
    if text != [] {
      var front, last := text[..|text| - 1], text[|text| - 1];
      PlainTextIsItself(front);
      PlainEscape(last);
      assert text == front + [last];
    }
  }
}
