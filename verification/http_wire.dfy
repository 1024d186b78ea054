/**
 * The HTTP/1.1 message shape both builders emit (section 2.1 of RFC 9112:
 * start-line CRLF, field lines each ending in CRLF, an empty line, then the
 * body), a reader for that shape, and the part of `snprintf` the builders
 * rely on.
 */
module HttpWire {
  import opened Wrappers
  import opened Decimal
  import opened CStrings

  const CRLF: string := "\r\n"

  datatype Field = Field(name: string, value: string)

  datatype Message = Message(startLine: string, fields: seq<Field>, body: string)

  function FieldLines(fields: seq<Field>): string {
    if fields == [] then "" else fields[0].name + ": " + fields[0].value + CRLF + FieldLines(fields[1..])
  }

  function Serialize(m: Message): string {
    m.startLine + CRLF + FieldLines(m.fields) + CRLF + m.body
  }

  /** A field line that reads back unambiguously: a non-empty name without ':' and no CR anywhere. */
  predicate FieldOk(f: Field) {
    |f.name| > 0 && ':' !in f.name && '\r' !in f.name && '\r' !in f.value
  }

  predicate Framable(m: Message) {
    '\r' !in m.startLine && forall i :: 0 <= i < |m.fields| ==> FieldOk(m.fields[i])
  }

  /** Splits at the first CRLF: the line before it and everything after it. */
  function SplitLine(s: string): (r: Option<(string, string)>)
    ensures r.Some? ==> |r.value.1| + 2 <= |s|
  {
    if |s| < 2 then None
    else if s[0] == '\r' && s[1] == '\n' then Some(("", s[2..]))
    else
      match SplitLine(s[1..])
      case None => None
      case Some((line, rest)) => Some(([s[0]] + line, rest))
  }

  function ParseField(line: string): Option<Field> {
    match SplitAt(line, ':')
    case None => None
    case Some((name, rest)) =>
      if |name| > 0 && |rest| > 0 && rest[0] == ' ' then Some(Field(name, rest[1..])) else None
  }

  /** Field lines up to the empty line, and the bytes after it. */
  function ParseFields(s: string): Option<(seq<Field>, string)>
    decreases |s|
  {
    match SplitLine(s)
    case None => None
    case Some((line, rest)) =>
      if line == "" then Some(([], rest))
      else
        match ParseField(line)
        case None => None
        case Some(f) =>
          match ParseFields(rest)
          case None => None
          case Some((fs, body)) => Some(([f] + fs, body))
  }

  function Parse(wire: string): Option<Message> {
    match SplitLine(wire)
    case None => None
    case Some((start, rest)) =>
      match ParseFields(rest)
      case None => None
      case Some((fields, body)) => Some(Message(start, fields, body))
  }

  /** The value of the first field with the given name. */
  function FieldValue(fields: seq<Field>, name: string): Option<string> {
    if fields == [] then None
    else if fields[0].name == name then Some(fields[0].value)
    else FieldValue(fields[1..], name)
  }

  /** The Content-Length a message announces (section 8.6 of RFC 9110). */
  function ContentLength(m: Message): Option<nat> {
    match FieldValue(m.fields, "Content-Length")
    case None => None
    case Some(v) => ParseNat(v)
  }

  /** The announced Content-Length is the number of body bytes that follow the empty line. */
  predicate BodyFramed(m: Message) {
    ContentLength(m) == Some(|m.body|)
  }

  lemma {:induction false} SplitLineAt(a: string, b: string)
    requires '\r' !in a
    ensures SplitLine(a + CRLF + b) == Some((a, b))
  {
    if a != [] {
      assert (a + CRLF + b)[1..] == a[1..] + CRLF + b;
      SplitLineAt(a[1..], b);
      assert [a[0]] + a[1..] == a;
    } else {
      assert (a + CRLF + b)[2..] == b;
    }
  }

  lemma ParseFieldLine(f: Field)
    requires FieldOk(f)
    ensures ParseField(f.name + ": " + f.value) == Some(f)
  {
    assert f.name + ": " + f.value == f.name + [':'] + (" " + f.value);
    SplitAtFirst(f.name, ':', " " + f.value);
    assert (" " + f.value)[1..] == f.value;
  }

  lemma {:induction false} ParseFieldLines(fields: seq<Field>, body: string)
    requires forall i :: 0 <= i < |fields| ==> FieldOk(fields[i])
    ensures ParseFields(FieldLines(fields) + CRLF + body) == Some((fields, body))
    decreases |fields|
  {
    if fields == [] {
      assert FieldLines(fields) + CRLF + body == "" + CRLF + body;
      SplitLineAt("", body);
    } else {
      var f := fields[0];
      var line := f.name + ": " + f.value;
      var rest := FieldLines(fields[1..]) + CRLF + body;
      assert FieldLines(fields) + CRLF + body == line + CRLF + rest;
      assert '\r' !in line by {
        assert FieldOk(f);
        forall k | 0 <= k < |line| ensures line[k] != '\r' {
          if k < |f.name| { assert line[k] == f.name[k]; }
          else if k >= |f.name| + 2 { assert line[k] == f.value[k - |f.name| - 2]; }
        }
      }
      assert line != "";
      SplitLineAt(line, rest);
      ParseFieldLine(f);
      ParseFieldLines(fields[1..], body);
      assert [f] + fields[1..] == fields;
    }
  }

  /** Reading back a serialised message gives the message itself (section 2.1 of RFC 9112). */
  lemma ParseSerialize(m: Message)
    requires Framable(m)
    ensures Parse(Serialize(m)) == Some(m)
  {
    assert Serialize(m) == m.startLine + CRLF + (FieldLines(m.fields) + CRLF + m.body);
    SplitLineAt(m.startLine, FieldLines(m.fields) + CRLF + m.body);
    ParseFieldLines(m.fields, m.body);
  }

  /** The builders' size error: the full text needs `length` bytes plus the NUL. */
  datatype BuildError = TooLarge(length: nat)

  /** One field line, spelt out. */
  lemma HeaderLineText(name: string, value: string, line: string)
    requires line == name + ": " + value + "\r\n"
    ensures FieldLines([Field(name, value)]) == line
  {
    assert [Field(name, value)][1..] == [];
  }

  lemma {:induction false} FieldLinesAppend(a: seq<Field>, b: seq<Field>)
    ensures FieldLines(a + b) == FieldLines(a) + FieldLines(b)
    decreases |a|
  {
    if a == [] {
      assert a + b == b;
    } else {
      assert (a + b)[0] == a[0] && (a + b)[1..] == a[1..] + b;
      FieldLinesAppend(a[1..], b);
    }
  }

  /**
   * Regrouping of a formatted message into start line, field lines and the empty line;
   * with the pieces symbolic, no literal is compared character by character.
   */
  lemma Regroup(sl: string, r: string, h: string, c: string, n: string, body: string,
                 f: string, k: string, p: string, e: string)
    requires h + c == f + k + p && e == []
    ensures sl + r + h + c + n + r + r + body == sl + r + (f + (k + p + n + r + e)) + r + body
  {
    calc {
      sl + r + h + c + n + r + r + body;
      sl + r + (h + c) + n + r + r + body;
      sl + r + (f + k + p) + n + r + r + body;
      sl + r + (f + (k + p + n + r + e)) + r + body;
    }
  }

  /** What `snprintf(buffer, size, ...)` leaves behind: the characters stored before the NUL, and its return value. */
  datatype Formatted = Formatted(buffer: string, length: nat)

  /**
   * C11 section 7.21.6.5: at most size - 1 characters are stored (then a NUL),
   * and the result is the length the full text would have had.
   */
  function Snprintf(text: string, size: nat): (f: Formatted)
    ensures f.length == |text|
    ensures f.buffer <= text
    ensures f.length < size <==> f.buffer == text && size > 0
    ensures size > 0 && f.length >= size ==> |f.buffer| == size - 1
  {
    if size == 0 then Formatted([], |text|)
    else if |text| < size then Formatted(text, |text|)
    else Formatted(text[..size - 1], |text|)
  }
}
