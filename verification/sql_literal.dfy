/**
 * SQL character-string literals as the dump writers produce them: a column
 * value is either the NULL keyword or its text wrapped in single quotes with
 * every embedded quote doubled (the <literal> rule of ISO/IEC 9075-2,
 * section 5.3).
 */
module SqlLiteral {
  import opened Wrappers

  /** A column value as the dump writer sees it: Python's None, or any other
      value through the text that str() gives it. */
  datatype Value = Null | Text(text: string)

  const Quote: char := '\''

  /** s.replace("'", "''"): doubles every single quote. */
  function Escape(s: string): (r: string)
    ensures |r| >= |s|
    ensures Quote !in s ==> r == s
  {
    if s == [] then []
    else (if s[0] == Quote then [Quote, Quote] else [s[0]]) + Escape(s[1..])
  }

  /** Every quote of t is the first half of a doubled pair: t is the body of a
      well-formed quoted literal. */
  predicate WellEscaped(t: string)
    decreases |t|
  {
    if t == [] then true
    else if t[0] == Quote then |t| >= 2 && t[1] == Quote && WellEscaped(t[2..])
    else WellEscaped(t[1..])
  }

  /** Undoes the doubling: each pair of quotes becomes one quote. */
  function Unescape(t: string): (r: string)
    decreases |t|
  {
    if t == [] then []
    else if t[0] == Quote && |t| >= 2 && t[1] == Quote then [Quote] + Unescape(t[2..])
    else [t[0]] + Unescape(t[1..])
  }

  lemma {:induction false} EscapeWellEscaped(s: string)
    ensures WellEscaped(Escape(s))
  {
    if s != [] {
      EscapeWellEscaped(s[1..]);
      var e := Escape(s);
      if s[0] == Quote {
        assert e == [Quote, Quote] + Escape(s[1..]);
        assert e[2..] == Escape(s[1..]);
      } else {
        assert e == [s[0]] + Escape(s[1..]);
        assert e[1..] == Escape(s[1..]);
      }
    }
  }

  /** Un-doubling the escaped text gives back the original text. */
  lemma {:induction false} UnescapeEscape(s: string)
    ensures Unescape(Escape(s)) == s
  {
    if s != [] {
      UnescapeEscape(s[1..]);
      var e := Escape(s);
      if s[0] == Quote {
        assert e == [Quote, Quote] + Escape(s[1..]);
        assert e[2..] == Escape(s[1..]);
      } else {
        assert e == [s[0]] + Escape(s[1..]);
        assert e[1..] == Escape(s[1..]);
      }
      assert Unescape(e) == [s[0]] + s[1..];
    }
  }

  /** Every well-formed literal body is the escape of exactly one text. */
  lemma {:induction false} EscapeUnescape(t: string)
    requires WellEscaped(t)
    ensures Escape(Unescape(t)) == t
  {
    if t != [] {
      if t[0] == Quote {
        EscapeUnescape(t[2..]);
        assert Unescape(t) == [Quote] + Unescape(t[2..]);
        assert (([Quote] + Unescape(t[2..]))[1..]) == Unescape(t[2..]);
        assert t == [Quote, Quote] + t[2..];
      } else {
        EscapeUnescape(t[1..]);
        assert Unescape(t) == [t[0]] + Unescape(t[1..]);
        assert (([t[0]] + Unescape(t[1..]))[1..]) == Unescape(t[1..]);
        assert t == [t[0]] + t[1..];
      }
    }
  }

  /** Undoubling never lengthens a text, and it shortens every well-formed
      body that holds a quote: each doubled pair loses one quote. */
  lemma {:induction false} UnescapeNotLonger(t: string)
    ensures |Unescape(t)| <= |t|
    ensures Quote in t && WellEscaped(t) ==> |Unescape(t)| < |t|
    decreases |t|
  {
    if t != [] {
      if t[0] == Quote && |t| >= 2 && t[1] == Quote {
        UnescapeNotLonger(t[2..]);
      } else {
        UnescapeNotLonger(t[1..]);
        if Quote in t && WellEscaped(t) {
          assert t[0] != Quote;
          assert Quote in t[1..] by {
            var k :| 0 <= k < |t| && t[k] == Quote;
            assert t[1..][k - 1] == Quote;
          }
        }
      }
    }
  }

  /** Two different texts never escape to the same body. */
  lemma EscapeInjective(a: string, b: string)
    requires Escape(a) == Escape(b)
    ensures a == b
  {
    UnescapeEscape(a);
    UnescapeEscape(b);
  }

  /** The per-value encoder of the dump writer: NULL for None, otherwise the
      quoted, quote-doubled text. */
  function Encode(v: Value): (r: string)
    ensures r == "NULL" <==> v.Null?
    ensures v.Text? ==> |r| >= 2 && r[0] == Quote && r[|r| - 1] == Quote
  {
    match v
    case Null => "NULL"
    case Text(s) =>
      var r := [Quote] + Escape(s) + [Quote];
      assert r[0] != "NULL"[0];
      r
  }

  /** Reads a literal back: the NULL keyword, or a quoted well-formed body. */
  function Decode(lit: string): (r: Option<Value>)
  {
    if lit == "NULL" then Some(Null)
    else if |lit| >= 2 && lit[0] == Quote && lit[|lit| - 1] == Quote && WellEscaped(lit[1..|lit| - 1])
    then Some(Text(Unescape(lit[1..|lit| - 1])))
    else None
  }

  /** Decoding an encoded value gives the value back; in particular NULL and
      the quoted text "NULL" stay apart. */
  lemma EncodeDecode(v: Value)
    ensures Decode(Encode(v)) == Some(v)
  {
    if v.Text? {
      var r := Encode(v);
      assert r[1..|r| - 1] == Escape(v.text);
      EscapeWellEscaped(v.text);
      UnescapeEscape(v.text);
    }
  }

  /** Every literal the decoder accepts is the encoding of what it decodes to. */
  lemma DecodeEncode(lit: string)
    requires Decode(lit).Some?
    ensures Encode(Decode(lit).value) == lit
  {
    if lit != "NULL" {
      var body := lit[1..|lit| - 1];
      EscapeUnescape(body);
      assert lit == [Quote] + body + [Quote];
    }
  }

  /** Distinct values never share an encoding. */
  lemma EncodeInjective(a: Value, b: Value)
    requires Encode(a) == Encode(b)
    ensures a == b
  {
    EncodeDecode(a);
    EncodeDecode(b);
  }

  /** The encoded values of one row, in column order. */
  function EncodeAll(values: seq<Value>): (r: seq<string>)
  {
    seq(|values|, i requires 0 <= i < |values| => Encode(values[i]))
  }

  /** One encoded literal per value, each decoding to that value. */
  lemma EncodeAllDecodes(values: seq<Value>)
    ensures |EncodeAll(values)| == |values|
    ensures forall i :: 0 <= i < |values| ==> Decode(EncodeAll(values)[i]) == Some(values[i])
  {
    forall i | 0 <= i < |values|
      ensures Decode(EncodeAll(values)[i]) == Some(values[i])
    {
      EncodeDecode(values[i]);
    }
  }

  /** sep.join(parts) */
  function Join(parts: seq<string>, sep: string): string
  {
    if |parts| == 0 then ""
    else if |parts| == 1 then parts[0]
    else parts[0] + sep + Join(parts[1..], sep)
  }

  /** "INSERT INTO <table> (<columns>) VALUES (<literals>);" */
  function InsertText(table: string, columns: seq<string>, literals: seq<string>): string
  {
    "INSERT INTO " + table + " (" + Join(columns, ", ") + ") VALUES (" + Join(literals, ", ") + ");"
  }

  /** Both SQL scripts the application writes are a five-line header, one
      section of INSERT lines, a blank line, a second section, a blank line and
      COMMIT; this is where each part sits. */
  lemma ScriptLayout(head: seq<string>, a: seq<string>, b: seq<string>)
    requires |head| == 5
    ensures var d := head + a + [""] + b + ["", "COMMIT;"];
      && |d| == 8 + |a| + |b|
      && d[3] == head[3]
      && (forall i :: 0 <= i < |a| ==> d[5 + i] == a[i])
      && (forall j :: 0 <= j < |b| ==> d[6 + |a| + j] == b[j])
      && d[|d| - 1] == "COMMIT;"
      && d[..5] == head
      && d[6 + |a|..] == b + ["", "COMMIT;"]
  {
    var p1 := head + a;
    var p2 := p1 + [""];
    var p3 := p2 + b;
    var d := p3 + ["", "COMMIT;"];
    assert d == p2 + (b + ["", "COMMIT;"]);
    assert d[..5] == p1[..5] == head;
    assert d[3] == p3[3] == p2[3] == p1[3];
    forall i | 0 <= i < |a| ensures d[5 + i] == a[i] {
      assert d[5 + i] == p3[5 + i] == p2[5 + i] == p1[5 + i];
    }
    forall j | 0 <= j < |b| ensures d[6 + |a| + j] == b[j] {
      assert d[6 + |a| + j] == p3[|p2| + j];
    }
  }
}
