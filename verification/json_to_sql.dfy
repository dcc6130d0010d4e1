/**
 * The JSON-to-SQL converter: the exported messages and memories lists become
 * a SQL script of the same shape as the dump — a header, one INSERT line per
 * record, COMMIT — with the free-text fields quote-doubled. Reading the two
 * JSON files is outside the model: each list arrives already parsed, or as
 * None when its file could not be opened or parsed.
 */
module JsonToSql {
  import opened Wrappers
  import opened SqlLiteral
  import Store

  /** A parsed JSON value, as far as the converter looks at it. Values the
      converter only prints or tests for truth (floats, lists, objects) carry
      Python's str() text and truthiness with them. */
  datatype Json = JNull | JBool(b: bool) | JInt(i: int) | JStr(s: string) | JOther(text: string, truthy: bool)

  type Record = map<string, Json>

  /** An element of an exported list: an object, or any other JSON value (on
      which the converter's `.get` raises). */
  datatype Entry = Object(fields: Record) | NotObject

  datatype Section = MessagesSection | MemoriesSection

  const MessageColumns: seq<string> := ["name", "relationship", "message", "created_at"]
  const MemoryColumns: seq<string> :=
    ["name", "caption", "image_url", "cloudinary_id", "type", "storage_type", "file_size", "created_at"]

  /** The script's opening lines. */
  const Header: seq<string> :=
    ["-- Railway Database Backup", "-- Generated from JSON exports", "", "BEGIN TRANSACTION;", ""]

  /** record.get(key, default) */
  function Get(r: Record, key: string, default: Json): Json
  {
    if key in r then r[key] else default
  }

  function DigitChar(d: nat): char
    requires d < 10
  {
    "0123456789"[d]
  }

  /** Decimal digits of n, most significant first. */
  function DigitText(n: nat): (r: string)
    ensures |r| >= 1
    decreases n
  {
    if n < 10 then [DigitChar(n)] else DigitText(n / 10) + [DigitChar(n % 10)]
  }

  /** Python's str() of an integer. */
  function IntText(i: int): string
  {
    if i < 0 then "-" + DigitText(-i) else DigitText(i)
  }

  /** Python's str() of a JSON value, as an f-string interpolates it. */
  function PyStr(j: Json): string
  {
    match j
    case JNull => "None"
    case JBool(b) => if b then "True" else "False"
    case JInt(i) => IntText(i)
    case JStr(s) => s
    case JOther(text, _) => text
  }

  /** Python truthiness. */
  predicate Truthy(j: Json)
  {
    match j
    case JNull => false
    case JBool(b) => b
    case JInt(i) => i != 0
    case JStr(s) => s != ""
    case JOther(_, t) => t
  }

  /** The quote-doubled text of a free-text field, which defaults to ''; None
      when the field holds something other than a string (`.replace` raises). */
  function EscapedField(r: Record, key: string): (e: Option<string>)
    ensures e.Some? <==> Get(r, key, JStr("")).JStr?
    ensures e.Some? ==> e.value == Escape(Get(r, key, JStr("")).s)
    ensures e.Some? ==> WellEscaped(e.value) && Unescape(e.value) == Get(r, key, JStr("")).s
  {
    match Get(r, key, JStr(""))
    case JStr(s) =>
      EscapeWellEscaped(s);
      UnescapeEscape(s);
      Some(Escape(s))
    case _ => None
  }

  /** Wraps a field in single quotes, as the f-string does. */
  function Quoted(s: string): string
  {
    [Quote] + s + [Quote]
  }

  /** `mem.get('file_size', 0) or 0`, interpolated without quotes. */
  function FileSizeText(r: Record): string
  {
    var v := Get(r, "file_size", JInt(0));
    if Truthy(v) then PyStr(v) else "0"
  }

  /** The VALUES of one messages line, or None when a free-text field is not a
      string. */
  function MessageLiterals(r: Record): Option<seq<string>>
  {
    var name := EscapedField(r, "name");
    var relationship := EscapedField(r, "relationship");
    var message := EscapedField(r, "message");
    if name.Some? && relationship.Some? && message.Some? then
      Some([Quoted(name.value), Quoted(relationship.value), Quoted(message.value),
            Quoted(PyStr(Get(r, "created_at", JStr(""))))])
    else None
  }

  /** The VALUES of one memories line, or None when a free-text field is not a
      string. */
  function MemoryLiterals(r: Record): Option<seq<string>>
  {
    var name := EscapedField(r, "name");
    var caption := EscapedField(r, "caption");
    var imageUrl := EscapedField(r, "image_url");
    var cloudinaryId := EscapedField(r, "cloudinary_id");
    if name.Some? && caption.Some? && imageUrl.Some? && cloudinaryId.Some? then
      Some([Quoted(name.value), Quoted(caption.value), Quoted(imageUrl.value), Quoted(cloudinaryId.value),
            Quoted(PyStr(Get(r, "type", JStr("photo")))),
            Quoted(PyStr(Get(r, "storage_type", JStr("cloudinary")))),
            FileSizeText(r),
            Quoted(PyStr(Get(r, "created_at", JStr(""))))])
    else None
  }

  /** The INSERT line for one list element, or None when converting it raises. */
  function EntryLine(section: Section, e: Entry): Option<string>
  {
    match e
    case NotObject => None
    case Object(r) =>
      match section
      case MessagesSection =>
        (match MessageLiterals(r)
         case None => None
         case Some(lits) => Some(InsertText(Store.Messages, MessageColumns, lits)))
      case MemoriesSection =>
        (match MemoryLiterals(r)
         case None => None
         case Some(lits) => Some(InsertText(Store.Memories, MemoryColumns, lits)))
  }

  /** The lines a section's loop appends, `convert` giving each element's
      line or None when converting it raises: one line per element, up to the
      first element that raises (the exception ends the section, and the lines
      already appended stay). */
  function SectionLines(convert: Entry -> Option<string>, entries: seq<Entry>): (r: seq<string>)
    ensures |r| <= |entries|
  {
    if entries == [] then []
    else match convert(entries[0])
      case None => []
      case Some(line) => [line] + SectionLines(convert, entries[1..])
  }

  /** The converter of one section. */
  function LineOf(section: Section): Entry -> Option<string>
  {
    e => EntryLine(section, e)
  }

  /** A section whose file could not be loaded contributes nothing. */
  function Loaded(section: Section, input: Option<seq<Entry>>): seq<string>
  {
    match input
    case None => []
    case Some(entries) => SectionLines(LineOf(section), entries)
  }

  /** The script's lines: the header, the messages section, a blank line, the
      memories section, a blank line and COMMIT. */
  function Converted(messages: Option<seq<Entry>>, memories: Option<seq<Entry>>): seq<string>
  {
    Header + Loaded(MessagesSection, messages) + [""] + Loaded(MemoriesSection, memories) + ["", "COMMIT;"]
  }

  // ---------------------------------------------------------------------
  // Properties

  /** A section holds the lines of its leading convertible elements, in
      order, and stops exactly at the first element that raises. */
  lemma {:induction false} SectionStopsAtFailure(convert: Entry -> Option<string>, entries: seq<Entry>)
    ensures var r := SectionLines(convert, entries);
      && (forall k :: 0 <= k < |r| ==> convert(entries[k]) == Some(r[k]))
      && (|r| < |entries| ==> convert(entries[|r|]).None?)
  {
    if entries != [] && convert(entries[0]).Some? {
      var rest := SectionLines(convert, entries[1..]);
      SectionStopsAtFailure(convert, entries[1..]);
      var r := SectionLines(convert, entries);
      assert r == [convert(entries[0]).value] + rest;
      forall k | 0 <= k < |r| ensures convert(entries[k]) == Some(r[k]) {
        if k > 0 {
          assert r[k] == rest[k - 1] && entries[k] == entries[1..][k - 1];
        }
      }
      if |r| < |entries| {
        assert entries[|r|] == entries[1..][|rest|];
      }
    }
  }

  /** When every element converts, the section has exactly one line per
      element. */
  lemma SectionComplete(convert: Entry -> Option<string>, entries: seq<Entry>)
    requires forall k :: 0 <= k < |entries| ==> convert(entries[k]).Some?
    ensures |SectionLines(convert, entries)| == |entries|
  {
    SectionStopsAtFailure(convert, entries);
  }

  /** The script opens with the two comments, a blank line and BEGIN, holds
      the messages lines and then the memories lines, and ends with COMMIT;
      besides the INSERT lines it has 8 lines. */
  lemma ConvertedLayout(messages: Option<seq<Entry>>, memories: Option<seq<Entry>>)
    ensures var d := Converted(messages, memories);
      var a := Loaded(MessagesSection, messages);
      var b := Loaded(MemoriesSection, memories);
      && |d| == 8 + |a| + |b|
      && d[..5] == Header
      && d[3] == "BEGIN TRANSACTION;"
      && (forall i :: 0 <= i < |a| ==> d[5 + i] == a[i])
      && (forall j :: 0 <= j < |b| ==> d[6 + |a| + j] == b[j])
      && d[|d| - 1] == "COMMIT;"
  {
    ScriptLayout(Header, Loaded(MessagesSection, messages), Loaded(MemoriesSection, memories));
  }

  /** With both lists loaded and every element convertible the script has
      8 + #messages + #memories lines. */
  lemma ConvertedLineCount(messages: seq<Entry>, memories: seq<Entry>)
    requires forall k :: 0 <= k < |messages| ==> EntryLine(MessagesSection, messages[k]).Some?
    requires forall k :: 0 <= k < |memories| ==> EntryLine(MemoriesSection, memories[k]).Some?
    ensures |Converted(Some(messages), Some(memories))| == 8 + |messages| + |memories|
  {
    SectionComplete(LineOf(MessagesSection), messages);
    SectionComplete(LineOf(MemoriesSection), memories);
    ConvertedLayout(Some(messages), Some(memories));
  }

  /** A failure in the messages section — a missing file or an element that
      raises — never reaches the memories section or the closing COMMIT: what
      follows the messages section is the same whatever the messages input. */
  lemma MessagesErrorIsolated(messages: Option<seq<Entry>>, memories: Option<seq<Entry>>)
    ensures var d := Converted(messages, memories);
      d[6 + |Loaded(MessagesSection, messages)|..] == Loaded(MemoriesSection, memories) + ["", "COMMIT;"]
  {
    ScriptLayout(Header, Loaded(MessagesSection, messages), Loaded(MemoriesSection, memories));
  }

  /** A quote-doubled field in quotes reads back as the original text. */
  lemma QuotedEscapedDecodes(s: string)
    ensures Decode(Quoted(Escape(s))) == Some(Text(s))
  {
    assert Quoted(Escape(s)) == Encode(Text(s));
    EncodeDecode(Text(s));
  }

  /** A field interpolated without doubling reads back when it holds no
      quote. */
  lemma QuotedPlainDecodes(s: string)
    requires Quote !in s
    ensures Decode(Quoted(s)) == Some(Text(s))
  {
    QuotedEscapedDecodes(s);
  }

  /** The converse: a field holding a quote, interpolated without doubling,
      never reads back as its text; it is rejected or read as a shorter one. */
  lemma QuotedPlainOnlyWhen(s: string)
    requires Quote in s
    ensures Decode(Quoted(s)) != Some(Text(s))
  {
    var lit := Quoted(s);
    assert lit[0] == Quote && lit[0] != "NULL"[0];
    assert lit[1..|lit| - 1] == s;
    UnescapeNotLonger(s);
  }

  /** The text a string-valued field holds, '' when absent. */
  function TextOf(r: Record, key: string): string
    requires Get(r, key, JStr("")).JStr?
  {
    Get(r, key, JStr("")).s
  }

  /** A message converts exactly when name, relationship and message are
      strings (or absent); then each of those literals reads back as the
      original text, and created_at does too when it holds no quote. */
  lemma MessageFieldsRecovered(r: Record)
    ensures MessageLiterals(r).Some? <==>
      Get(r, "name", JStr("")).JStr? && Get(r, "relationship", JStr("")).JStr? && Get(r, "message", JStr("")).JStr?
    ensures MessageLiterals(r).Some? ==>
      var lits := MessageLiterals(r).value;
      && |lits| == |MessageColumns|
      && Decode(lits[0]) == Some(Text(TextOf(r, "name")))
      && Decode(lits[1]) == Some(Text(TextOf(r, "relationship")))
      && Decode(lits[2]) == Some(Text(TextOf(r, "message")))
      && (Quote !in PyStr(Get(r, "created_at", JStr(""))) ==>
            Decode(lits[3]) == Some(Text(PyStr(Get(r, "created_at", JStr(""))))))
  {
    if MessageLiterals(r).Some? {
      QuotedEscapedDecodes(TextOf(r, "name"));
      QuotedEscapedDecodes(TextOf(r, "relationship"));
      QuotedEscapedDecodes(TextOf(r, "message"));
      var created := PyStr(Get(r, "created_at", JStr("")));
      if Quote !in created {
        QuotedPlainDecodes(created);
      }
    }
  }

  /** A converted message uses the dump writer's literals: with a quote-free
      created_at, its VALUES are the encodings of the four texts, so its line
      is the line the dump writer renders for that row. */
  lemma MessageLineIsDumpLine(r: Record)
    requires MessageLiterals(r).Some?
    requires Quote !in PyStr(Get(r, "created_at", JStr("")))
    ensures var row := [Text(TextOf(r, "name")), Text(TextOf(r, "relationship")), Text(TextOf(r, "message")),
                        Text(PyStr(Get(r, "created_at", JStr(""))))];
      MessageLiterals(r).value == EncodeAll(row)
  {
    var row := [Text(TextOf(r, "name")), Text(TextOf(r, "relationship")), Text(TextOf(r, "message")),
                Text(PyStr(Get(r, "created_at", JStr(""))))];
    var lits := MessageLiterals(r).value;
    forall k | 0 <= k < 4 ensures lits[k] == EncodeAll(row)[k] {
      assert Encode(row[k]) == Quoted(Escape(row[k].text));
    }
  }

  /** A memory converts exactly when name, caption, image_url and
      cloudinary_id are strings (or absent); then each of those literals reads
      back as the original text. */
  lemma MemoryFieldsRecovered(r: Record)
    ensures MemoryLiterals(r).Some? <==>
      && Get(r, "name", JStr("")).JStr? && Get(r, "caption", JStr("")).JStr?
      && Get(r, "image_url", JStr("")).JStr? && Get(r, "cloudinary_id", JStr("")).JStr?
    ensures MemoryLiterals(r).Some? ==>
      var lits := MemoryLiterals(r).value;
      && |lits| == |MemoryColumns|
      && Decode(lits[0]) == Some(Text(TextOf(r, "name")))
      && Decode(lits[1]) == Some(Text(TextOf(r, "caption")))
      && Decode(lits[2]) == Some(Text(TextOf(r, "image_url")))
      && Decode(lits[3]) == Some(Text(TextOf(r, "cloudinary_id")))
  {
    if MemoryLiterals(r).Some? {
      QuotedEscapedDecodes(TextOf(r, "name"));
      QuotedEscapedDecodes(TextOf(r, "caption"));
      QuotedEscapedDecodes(TextOf(r, "image_url"));
      QuotedEscapedDecodes(TextOf(r, "cloudinary_id"));
    }
  }

  /** A memory without a type is stored as a photo. */
  lemma TypeDefault(r: Record)
    requires MemoryLiterals(r).Some? && "type" !in r
    ensures Decode(MemoryLiterals(r).value[4]) == Some(Text("photo"))
  {
    assert MemoryLiterals(r).value[4] == Quoted("photo");
    QuotedPlainDecodes("photo");
  }

  /** A memory without a storage_type is stored as a Cloudinary upload. */
  lemma StorageTypeDefault(r: Record)
    requires MemoryLiterals(r).Some? && "storage_type" !in r
    ensures Decode(MemoryLiterals(r).value[5]) == Some(Text("cloudinary"))
  {
    assert MemoryLiterals(r).value[5] == Quoted("cloudinary");
    QuotedPlainDecodes("cloudinary");
  }

  /** A missing created_at is written as the empty text. */
  lemma CreatedAtDefault(r: Record)
    requires MemoryLiterals(r).Some? && "created_at" !in r
    ensures Decode(MemoryLiterals(r).value[7]) == Some(Text(""))
  {
    assert MemoryLiterals(r).value[7] == Quoted("");
    QuotedPlainDecodes("");
  }

  /** file_size is written unquoted: 0 when missing or falsy, otherwise the
      value's text. */
  lemma FileSizeRule(r: Record)
    requires MemoryLiterals(r).Some?
    ensures "file_size" !in r ==> MemoryLiterals(r).value[6] == "0"
    ensures "file_size" in r && !Truthy(r["file_size"]) ==> MemoryLiterals(r).value[6] == "0"
    ensures "file_size" in r && Truthy(r["file_size"]) ==> MemoryLiterals(r).value[6] == PyStr(r["file_size"])
  {
    assert MemoryLiterals(r).value[6] == FileSizeText(r);
  }

  // ---------------------------------------------------------------------
  // The converter

  lemma AppendPair(lines: seq<string>, a: string, b: string)
    ensures lines + [a] + [b] == lines + [a, b]
  {
  }

  /** One section's loop: appends the line of each element in turn; the
      first element that raises ends the loop, keeping what was appended. */
  method ConvertSection(lines: seq<string>, convert: Entry -> Option<string>, input: Option<seq<Entry>>)
    returns (out: seq<string>)
    ensures input.None? ==> out == lines
    ensures input.Some? ==> out == lines + SectionLines(convert, input.value)
  {
    out := lines;
    if input.None? {
      return;
    }
    var entries := input.value;
    var i := 0;
    while i < |entries|
      invariant 0 <= i <= |entries|
      invariant out + SectionLines(convert, entries[i..]) == lines + SectionLines(convert, entries)
    {
      var line := convert(entries[i]);
      if line.None? {
        assert out + [] == out;
        return;
      }
      assert entries[i..][1..] == entries[i + 1..];
      out := out + [line.value];
      i := i + 1;
    }
    assert out + [] == out;
  }

  /** json_to_sql: builds the script's lines and the text written to the
      output file (the lines joined by newlines). */
  method JsonToSqlLines(messages: Option<seq<Entry>>, memories: Option<seq<Entry>>)
    returns (lines: seq<string>, text: string)
    ensures lines == Converted(messages, memories)
    ensures text == Join(lines, "\n")
  {
    lines := Header;
    lines := ConvertSection(lines, LineOf(MessagesSection), messages);
    ghost var withMessages := lines;
    lines := lines + [""];
    lines := ConvertSection(lines, LineOf(MemoriesSection), memories);
    lines := lines + [""];
    lines := lines + ["COMMIT;"];
    assert lines == Converted(messages, memories) by {
      assert withMessages == Header + Loaded(MessagesSection, messages);
      assert lines == withMessages + [""] + Loaded(MemoriesSection, memories) + [""] + ["COMMIT;"];
      AppendPair(withMessages + [""] + Loaded(MemoriesSection, memories), "", "COMMIT;");
    }
    text := Join(lines, "\n");
  }
}
