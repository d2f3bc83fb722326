/**
 * The tab-separated record format of intermediate and output files.
 *
 * Text is a sequence of Unicode scalar values. The four escaped characters and the escape letters are
 * ASCII, so decoding byte by byte, as the source does, agrees with decoding character by character.
 */
module Records {
  import opened Base

  datatype Record = Record(key: string, value: string)

  predicate Special(c: char) {
    c == '\\' || c == '\t' || c == '\n' || c == '\r'
  }

  function EscapeChar(c: char): string {
    if c == '\\' then "\\\\"
    else if c == '\t' then "\\t"
    else if c == '\n' then "\\n"
    else if c == '\r' then "\\r"
    else [c]
  }

  function Escape(s: string): string {
    if s == [] then [] else EscapeChar(s[0]) + Escape(s[1..])
  }

  lemma {:induction false} EscapeAppend(s: string, t: string)
    ensures Escape(s + t) == Escape(s) + Escape(t)
  {
    if s == [] {
      assert s + t == t;
    } else {
      assert (s + t)[1..] == s[1..] + t;
      EscapeAppend(s[1..], t);
    }
  }

  lemma {:induction false} EscapePlain(s: string)
    requires forall c <- s :: !Special(c)
    ensures Escape(s) == s
  {
    if s != [] {
      assert !Special(s[0]) && s == [s[0]] + s[1..];
      EscapePlain(s[1..]);
    }
  }

  /** Escaped text holds no separator, so a record is one line and its fields are found again. */
  lemma {:induction false} EscapeHidesSeparators(s: string)
    ensures '\t' !in Escape(s) && '\n' !in Escape(s) && '\r' !in Escape(s)
  {
    if s != [] {
      EscapeHidesSeparators(s[1..]);
    }
  }

  method EscapeText(s: string) returns (r: string)
    ensures r == Escape(s)
  {
    if forall c | c in s :: !Special(c) {
      EscapePlain(s);
      return s;
    }
    r := [];
    for i := 0 to |s|
      invariant r == Escape(s[..i])
    {
      assert s[..i + 1] == s[..i] + [s[i]];
      EscapeAppend(s[..i], [s[i]]);
      r := r + EscapeChar(s[i]);
    }
    assert s[..|s|] == s;
  }

  function DecodeLetter(c: char): Option<char> {
    if c == '\\' then Some('\\')
    else if c == 't' then Some('\t')
    else if c == 'n' then Some('\n')
    else if c == 'r' then Some('\r')
    else None
  }

  function Prepend(s: string, r: Result<string>): Result<string> {
    match r
    case Ok(t) => Ok(s + t)
    case Err(e) => Err(e)
  }

  const TRAILING := "trailing escape character"
  const UNKNOWN := "unknown escape"

  function Unescape(s: string): Result<string> {
    if s == [] then Ok([])
    else if s[0] != '\\' then Prepend([s[0]], Unescape(s[1..]))
    else if |s| == 1 then Err(TRAILING)
    else match DecodeLetter(s[1])
      case None => Err(UNKNOWN)
      case Some(c) => Prepend([c], Unescape(s[2..]))
  }

  lemma {:induction false} UnescapePlain(s: string)
    requires '\\' !in s
    ensures Unescape(s) == Ok(s)
  {
    if s != [] {
      UnescapePlain(s[1..]);
      assert s == [s[0]] + s[1..];
    }
  }

  method UnescapeText(s: string) returns (r: Result<string>)
    ensures r == Unescape(s)
  {
    if '\\' !in s {
      UnescapePlain(s);
      return Ok(s);
    }
    var b: string := [];
    var i := 0;
    assert s[0..] == s;
    if Unescape(s).Ok? {
      assert [] + Unescape(s).value == Unescape(s).value;
    }
    while i < |s|
      invariant i <= |s|
      invariant Unescape(s) == Prepend(b, Unescape(s[i..]))
    {
      ghost var before := b;
      ghost var rest := s[i..];
      if s[i] != '\\' {
        b := b + [s[i]];
        i := i + 1;
        assert rest[1..] == s[i..];
      } else {
        i := i + 1;
        if i >= |s| {
          return Err(TRAILING);
        }
        assert rest[1] == s[i];
        match DecodeLetter(s[i]) {
          case None =>
            return Err(UNKNOWN);
          case Some(c) =>
            b := b + [c];
            assert rest[2..] == s[i + 1..];
        }
        i := i + 1;
      }
      if Unescape(s[i..]).Ok? {
        var t := Unescape(s[i..]).value;
        assert before + ([b[|b| - 1]] + t) == b + t;
      }
    }
    assert s[i..] == [] && b + [] == b;
    return Ok(b);
  }

  /** Decoding undoes escaping, on every text. */
  lemma {:induction false} UnescapeEscape(s: string)
    ensures Unescape(Escape(s)) == Ok(s)
  {
    if s != [] {
      UnescapeEscape(s[1..]);
      var e := EscapeChar(s[0]) + Escape(s[1..]);
      if Special(s[0]) {
        assert e[2..] == Escape(s[1..]);
      } else {
        assert e[1..] == Escape(s[1..]);
      }
      assert s == [s[0]] + s[1..];
    }
  }

  /** What each character is written as. */
  lemma EscapedAs(c: char)
    ensures c == '\\' ==> Escape([c]) == "\\\\"
    ensures c == '\t' ==> Escape([c]) == "\\t"
    ensures c == '\n' ==> Escape([c]) == "\\n"
    ensures c == '\r' ==> Escape([c]) == "\\r"
    ensures c !in "\\\t\n\r" ==> Escape([c]) == [c]
  {
    assert [c][1..] == [];
    assert Escape([c]) == EscapeChar(c) + [];
  }

  /** What a letter after a backslash stands for; any other letter, or none, is an error. */
  lemma StandsFor(c: char)
    ensures Unescape(['\\', c]) ==
            if c == '\\' then Ok("\\") else if c == 't' then Ok("\t") else if c == 'n' then Ok("\n")
            else if c == 'r' then Ok("\r") else Err(UNKNOWN)
    ensures Unescape("\\") == Err(TRAILING)
  {
    assert ['\\', c][2..] == [];
    assert Unescape([]) == Ok([]);
    if DecodeLetter(c).Some? {
      assert [DecodeLetter(c).value] + [] == [DecodeLetter(c).value];
    }
  }

  lemma PrependTwice(a: string, b: string, r: Result<string>)
    ensures Prepend(a + b, r) == Prepend(a, Prepend(b, r))
  {
    if r.Ok? {
      assert a + b + r.value == a + (b + r.value);
    }
  }

  /** Text after an unescaped part is unescaped for itself. */
  lemma {:induction false} UnescapeAppend(s: string, t: string)
    requires Unescape(s).Ok?
    ensures Unescape(s + t) == Prepend(Unescape(s).value, Unescape(t))
    decreases |s|
  {
    if s == [] {
      assert s + t == t && Unescape(s).value == [];
      assert Unescape(t).Ok? ==> [] + Unescape(t).value == Unescape(t).value;
    } else if s[0] != '\\' {
      assert (s + t)[1..] == s[1..] + t && (s + t)[0] == s[0];
      UnescapeAppend(s[1..], t);
      PrependTwice([s[0]], Unescape(s[1..]).value, Unescape(t));
    } else {
      assert (s + t)[2..] == s[2..] + t && (s + t)[0] == s[0] && (s + t)[1] == s[1];
      UnescapeAppend(s[2..], t);
      PrependTwice([DecodeLetter(s[1]).value], Unescape(s[2..]).value, Unescape(t));
    }
  }

  // ----- lines -----

  function EncodeRecord(r: Record): string {
    Escape(r.key) + "\t" + Escape(r.value) + "\n"
  }

  function Encode(records: seq<Record>): string {
    if records == [] then [] else EncodeRecord(records[0]) + Encode(records[1..])
  }

  lemma {:induction false} EncodeAppend(a: seq<Record>, b: seq<Record>)
    ensures Encode(a + b) == Encode(a) + Encode(b)
  {
    if a == [] {
      assert a + b == b;
    } else {
      assert (a + b)[1..] == a[1..] + b;
      EncodeAppend(a[1..], b);
    }
  }

  /** The position of the first `c`, or the length of `s`. */
  function Find(s: string, c: char): (i: nat)
    ensures i <= |s| && c !in s[..i]
    ensures i < |s| ==> s[i] == c
  {
    if s == [] || s[0] == c then 0 else
      var i := 1 + Find(s[1..], c);
      assert s[..i] == [s[0]] + s[1..][..i - 1];
      i
  }

  lemma {:induction false} FindFirst(s: string, c: char, t: string)
    requires c !in s
    ensures Find(s + [c] + t, c) == |s|
  {
    if s == [] {
      assert s + [c] + t == [c] + t;
    } else {
      assert (s + [c] + t)[1..] == s[1..] + [c] + t;
      FindFirst(s[1..], c, t);
    }
  }

  /** The scanner drops one carriage return before the line end. */
  function DropReturn(line: string): string {
    if line != [] && line[|line| - 1] == '\r' then line[..|line| - 1] else line
  }

  function ParseLine(line: string): Result<Record> {
    var tab := Find(line, '\t');
    if tab == |line| then Err("missing separator") else
    match Unescape(line[..tab])
    case Err(e) => Err(e)
    case Ok(key) =>
      match Unescape(line[tab + 1..])
      case Err(e) => Err(e)
      case Ok(value) => Ok(Record(key, value))
  }

  datatype Reading = End | Got(record: Record, rest: string) | Bad(message: string, rest: string)

  /** Reads the next record of a stream, passing over empty lines. */
  function Read(text: string): Reading
    decreases |text|
  {
    if text == [] then End else
    var eol := Find(text, '\n');
    var line := DropReturn(text[..eol]);
    var rest := if eol == |text| then [] else text[eol + 1..];
    if line == [] then Read(rest) else
    match ParseLine(line)
    case Err(e) => Bad(e, rest)
    case Ok(r) => Got(r, rest)
  }

  lemma ParseEncodedLine(r: Record)
    ensures ParseLine(Escape(r.key) + "\t" + Escape(r.value)) == Ok(r)
  {
    var line := Escape(r.key) + "\t" + Escape(r.value);
    EscapeHidesSeparators(r.key);
    FindFirst(Escape(r.key), '\t', Escape(r.value));
    assert line[..|Escape(r.key)|] == Escape(r.key);
    assert line[|Escape(r.key)| + 1..] == Escape(r.value);
    UnescapeEscape(r.key);
    UnescapeEscape(r.value);
  }

  /** A written record is read back and nothing after it is touched. */
  lemma ReadEncoded(r: Record, rest: string)
    ensures Read(EncodeRecord(r) + rest) == Got(r, rest)
  {
    var line := Escape(r.key) + "\t" + Escape(r.value);
    var text := EncodeRecord(r) + rest;
    EscapeHidesSeparators(r.key);
    EscapeHidesSeparators(r.value);
    assert text == line + ['\n'] + rest;
    FindFirst(line, '\n', rest);
    assert text[..|line|] == line && text[|line| + 1..] == rest;
    assert line[|line| - 1] != '\r';
    ParseEncodedLine(r);
  }

  /**
   * A line ends with a line feed, with a carriage return before it or not. An empty one is passed over, any other is a
   * record or an error, and reading goes on after it.
   */
  lemma ReadLine(line: string, cr: bool, rest: string)
    requires '\n' !in line && (cr || line == [] || line[|line| - 1] != '\r')
    ensures var reading := Read(line + (if cr then "\r\n" else "\n") + rest);
            var parsed := ParseLine(line);
            reading == if line == [] then Read(rest)
                       else if parsed.Ok? then Got(parsed.value, rest) else Bad(parsed.message, rest)
  {
    var whole := if cr then line + ['\r'] else line;
    var text := whole + ['\n'] + rest;
    assert line + (if cr then "\r\n" else "\n") + rest == text;
    FindFirst(whole, '\n', rest);
    assert text[..|whole|] == whole && text[|whole| + 1..] == rest;
    assert DropReturn(whole) == line;
  }

  /** A line's first tab parts its key from its value, and a line without a tab is no record. */
  lemma LineFields(a: string, b: string)
    requires '\t' !in a
    ensures ParseLine(a).Err?
    ensures var key := Unescape(a);
            var value := Unescape(b);
            ParseLine(a + "\t" + b) ==
              if key.Err? then Err(key.message)
              else if value.Err? then Err(value.message)
              else Ok(Record(key.value, value.value))
  {
    var line := a + "\t" + b;
    FindFirst(a, '\t', b);
    assert line[..|a|] == a && line[|a| + 1..] == b;
  }

  /** A record is written as a line: its key, a tab and its value. */
  lemma SampleLine()
    ensures Encode([Record("a", "\t")]) == "a\t\\t\n"
  {
    EscapedAs('a');
    EscapedAs('\t');
    assert [Record("a", "\t")][1..] == [];
    assert Encode([Record("a", "\t")]) == EncodeRecord(Record("a", "\t")) + [];
  }

  /** What a file delivers before it ends or breaks. */
  datatype Stream = Stream(records: seq<Record>, broken: bool)

  function Decode(text: string): Stream
    decreases |text|
  {
    match Read(text)
    case End => Stream([], false)
    case Bad(_, _) => Stream([], true)
    case Got(r, rest) =>
      ReadShrinks(text);
      var s := Decode(rest);
      Stream([r] + s.records, s.broken)
  }

  lemma {:induction false} ReadShrinks(text: string)
    ensures !Read(text).End? ==> |Read(text).rest| < |text|
    decreases |text|
  {
    if text != [] {
      var eol := Find(text, '\n');
      ReadShrinks(if eol == |text| then [] else text[eol + 1..]);
    }
  }

  /** Reading a written stream returns the same records, and reading never fails. */
  lemma {:induction false} DecodeEncode(records: seq<Record>)
    ensures Decode(Encode(records)) == Stream(records, false)
  {
    if records != [] {
      ReadEncoded(records[0], Encode(records[1..]));
      DecodeEncode(records[1..]);
      assert records == [records[0]] + records[1..];
    }
  }

  class Writer {
    var text: string

    constructor ()
      ensures text == []
    {
      text := [];
    }

    method Write(r: Record)
      modifies this
      ensures text == old(text) + EncodeRecord(r)
    {
      var key := EscapeText(r.key);
      text := text + key;
      text := text + "\t";
      var value := EscapeText(r.value);
      text := text + value;
      text := text + "\n";
    }
  }

  class Reader {
    var text: string

    constructor (source: string)
      ensures text == source
    {
      text := source;
    }

    method Next() returns (r: Result<Option<Record>>)
      modifies this
      ensures match Read(old(text))
              case End => r == Ok(None) && text == []
              case Got(record, rest) => r == Ok(Some(record)) && text == rest
              case Bad(message, rest) => r == Err(message) && text == rest
    {
      while text != []
        invariant Read(text) == Read(old(text))
        decreases |text|
      {
        var eol := Find(text, '\n');
        var line := DropReturn(text[..eol]);
        text := if eol == |text| then [] else text[eol + 1..];
        if line == [] {
          continue;
        }
        var tab := Find(line, '\t');
        if tab == |line| {
          return Err("missing separator");
        }
        var key := UnescapeText(line[..tab]);
        if key.Err? {
          return Err(key.message);
        }
        var value := UnescapeText(line[tab + 1..]);
        if value.Err? {
          return Err(value.message);
        }
        return Ok(Some(Record(key.value, value.value)));
      }
      return Ok(None);
    }
  }
}
