/** The quote-aware scan that measures the first records of a delimited file, against the
    quoting rules of section 2 of RFC 4180. */
module CsvScanner {
  import opened Basics

  newtype byte = b: int | 0 <= b < 256

  const QUOTE: byte := 34
  const LF: byte := 10
  const CR: byte := 13

  // ---------- the scanner ----------

  /** The widths found so far, and the widths in the bytes that are left. */
  function Widths(s: seq<byte>, delimiter: byte, limit: nat, quoted: bool, fields: nat, found: seq<nat>): seq<nat> {
    if s == [] || |found| >= limit then
      if fields > 1 && |found| < limit then found + [fields] else found
    else if s[0] == QUOTE && quoted && |s| > 1 && s[1] == QUOTE then
      Widths(s[2..], delimiter, limit, quoted, fields, found)
    else if s[0] == QUOTE then Widths(s[1..], delimiter, limit, !quoted, fields, found)
    else if s[0] == delimiter && !quoted then Widths(s[1..], delimiter, limit, quoted, fields + 1, found)
    else if s[0] == LF && !quoted then Widths(s[1..], delimiter, limit, quoted, 1, found + [fields])
    else Widths(s[1..], delimiter, limit, quoted, fields, found)
  }

  /** `delimited_record_widths`. */
  method DelimitedRecordWidths(sample: seq<byte>, delimiter: byte, limit: nat) returns (widths: seq<nat>)
    ensures widths == Widths(sample, delimiter, limit, false, 1, [])
  {
    widths := [];
    var fields, quoted, index := 1, false, 0;
    while index < |sample| && |widths| < limit
      invariant 0 <= index <= |sample|
      invariant Widths(sample, delimiter, limit, false, 1, []) ==
        Widths(sample[index..], delimiter, limit, quoted, fields, widths)
    {
      ghost var rest := sample[index..];
      assert sample[index + 1..] == rest[1..];
      if sample[index] == QUOTE && quoted && index + 1 < |sample| && sample[index + 1] == QUOTE {
        assert sample[index + 2..] == rest[2..];
        index := index + 1;
      } else if sample[index] == QUOTE {
        quoted := !quoted;
      } else if sample[index] == delimiter && !quoted {
        fields := fields + 1;
      } else if sample[index] == LF && !quoted {
        widths := widths + [fields];
        fields := 1;
      }
      index := index + 1;
    }
    if fields > 1 && |widths| < limit {
      widths := widths + [fields];
    }
  }

  // ---------- rendered tables ----------

  datatype Field = Plain(text: seq<byte>) | Quoted(text: seq<byte>)

  /** A record with its line break: CR LF, or LF alone. */
  datatype Line = Line(fields: seq<Field>, crlf: bool)

  /** An unquoted field holds no quote, no line break and no delimiter. */
  predicate IsField(f: Field, delimiter: byte) {
    f.Plain? ==> forall b <- f.text :: b != QUOTE && b != LF && b != CR && b != delimiter
  }

  predicate IsRecord(fields: seq<Field>, delimiter: byte) {
    fields != [] && forall f <- fields :: IsField(f, delimiter)
  }

  function Doubled(text: seq<byte>): seq<byte> {
    if text == [] then []
    else (if text[0] == QUOTE then [QUOTE, QUOTE] else [text[0]]) + Doubled(text[1..])
  }

  function RenderField(f: Field): seq<byte> {
    match f
    case Plain(text) => text
    case Quoted(text) => [QUOTE] + (Doubled(text) + [QUOTE])
  }

  function RenderRecord(fields: seq<Field>, delimiter: byte): seq<byte> {
    if fields == [] then []
    else if |fields| == 1 then RenderField(fields[0])
    else RenderField(fields[0]) + ([delimiter] + RenderRecord(fields[1..], delimiter))
  }

  function LineBreak(crlf: bool): seq<byte> {
    if crlf then [CR, LF] else [LF]
  }

  /** Every line followed by its break, then perhaps one record without a break. */
  function RenderTable(lines: seq<Line>, last: seq<Field>, delimiter: byte): seq<byte> {
    if lines == [] then RenderRecord(last, delimiter)
    else RenderRecord(lines[0].fields, delimiter) + (LineBreak(lines[0].crlf) + RenderTable(lines[1..], last, delimiter))
  }

  function Lengths(lines: seq<Line>): seq<nat> {
    if lines == [] then [] else [|lines[0].fields|] + Lengths(lines[1..])
  }

  // ---------- scanning what was rendered ----------

  lemma {:induction false} PlainRun(text: seq<byte>, rest: seq<byte>, d: byte, limit: nat, fields: nat, found: seq<nat>)
    requires forall b <- text :: b != QUOTE && b != LF && b != d
    ensures Widths(text + rest, d, limit, false, fields, found) == Widths(rest, d, limit, false, fields, found) ||
      |found| >= limit
  {
    if text == [] {
      assert text + rest == rest;
    } else if |found| < limit {
      assert text[0] in text && forall b <- text[1..] :: b in text;
      assert (text + rest)[1..] == text[1..] + rest;
      PlainRun(text[1..], rest, d, limit, fields, found);
    }
  }

  /** A doubled quote does not close a quoted field; the single one after it does. */
  lemma {:induction false} QuotedRun(text: seq<byte>, rest: seq<byte>, d: byte, limit: nat, fields: nat,
                                       found: seq<nat>)
    requires rest == [] || rest[0] != QUOTE
    requires |found| < limit
    ensures Widths(Doubled(text) + ([QUOTE] + rest), d, limit, true, fields, found) ==
      Widths(rest, d, limit, false, fields, found)
  {
    var close := [QUOTE] + rest;
    InQuotes(rest, d, limit, fields, found);
    if text == [] {
      assert Doubled(text) + close == close;
    } else {
      var first, others := text[0], Doubled(text[1..]);
      var head := if first == QUOTE then [QUOTE, QUOTE] else [first];
      assert Doubled(text) == head + others;
      hide Widths, Doubled;
      QuotedRun(text[1..], rest, d, limit, fields, found);
      Associative(head, others, close);
      QuotedStep(first, others + close, d, limit, fields, found);
    }
  }

  /** Inside quotes a lone quote closes the field. */
  lemma InQuotes(rest: seq<byte>, d: byte, limit: nat, fields: nat, found: seq<nat>)
    requires (rest == [] || rest[0] != QUOTE) && |found| < limit
    ensures Widths([QUOTE] + rest, d, limit, true, fields, found) == Widths(rest, d, limit, false, fields, found)
  {
    assert ([QUOTE] + rest)[1..] == rest;
  }

  /** Inside quotes a doubled quote and any other byte are passed over. */
  lemma QuotedStep(b: byte, rest: seq<byte>, d: byte, limit: nat, fields: nat, found: seq<nat>)
    requires |found| < limit
    ensures Widths((if b == QUOTE then [QUOTE, QUOTE] else [b]) + rest, d, limit, true, fields, found) ==
      Widths(rest, d, limit, true, fields, found)
  {
    assert ([QUOTE, QUOTE] + rest)[2..] == rest;
    assert ([b] + rest)[1..] == rest;
  }

  lemma FieldRun(f: Field, rest: seq<byte>, d: byte, limit: nat, fields: nat, found: seq<nat>)
    requires IsField(f, d) && |found| < limit
    requires rest == [] || rest[0] != QUOTE
    ensures Widths(RenderField(f) + rest, d, limit, false, fields, found) == Widths(rest, d, limit, false, fields, found)
  {
    match f
    case Plain(text) => PlainRun(text, rest, d, limit, fields, found);
    case Quoted(text) =>
      var body := Doubled(text) + ([QUOTE] + rest);
      assert RenderField(f) + rest == [QUOTE] + body && ([QUOTE] + body)[1..] == body;
      QuotedRun(text, rest, d, limit, fields, found);
  }

  lemma DelimiterRun(rest: seq<byte>, d: byte, limit: nat, fields: nat, found: seq<nat>)
    requires |found| < limit && d != QUOTE
    ensures Widths([d] + rest, d, limit, false, fields, found) == Widths(rest, d, limit, false, fields + 1, found)
  {
    assert ([d] + rest)[1..] == rest;
  }

  lemma {:induction false} RecordRun(record: seq<Field>, rest: seq<byte>, d: byte, limit: nat, fields: nat,
                                       found: seq<nat>)
    requires IsRecord(record, d) && |found| < limit && d != QUOTE
    requires rest == [] || rest[0] != QUOTE
    ensures Widths(RenderRecord(record, d) + rest, d, limit, false, fields, found) ==
      Widths(rest, d, limit, false, fields + |record| - 1, found)
  {
    hide Widths, RenderField, IsField;
    var first, others := RenderField(record[0]), record[1..];
    assert record[0] in record && forall f <- others :: f in record;
    if |record| == 1 {
      FieldRun(record[0], rest, d, limit, fields, found);
    } else {
      var tail := RenderRecord(others, d);
      assert RenderRecord(record, d) == first + ([d] + tail);
      hide RenderRecord;
      Associative(first, [d] + tail, rest);
      Associative([d], tail, rest);
      FieldRun(record[0], [d] + (tail + rest), d, limit, fields, found);
      DelimiterRun(tail + rest, d, limit, fields, found);
      RecordRun(others, rest, d, limit, fields + 1, found);
    }
  }

  lemma BreakRun(crlf: bool, rest: seq<byte>, d: byte, limit: nat, fields: nat, found: seq<nat>)
    requires |found| < limit && d != CR && d != LF
    ensures Widths(LineBreak(crlf) + rest, d, limit, false, fields, found) ==
      Widths(rest, d, limit, false, 1, found + [fields])
    ensures (LineBreak(crlf) + rest)[0] != QUOTE
  {
    assert ([LF] + rest)[1..] == rest;
    assert ([CR, LF] + rest)[1..] == [LF] + rest;
  }

  predicate IsTable(lines: seq<Line>, last: seq<Field>, d: byte) {
    (forall line <- lines :: IsRecord(line.fields, d)) && (last == [] || IsRecord(last, d))
  }

  /** What the scanner should find in a rendered table. */
  function Expected(lines: seq<Line>, last: seq<Field>): seq<nat> {
    Lengths(lines) + (if |last| > 1 then [|last|] else [])
  }

  lemma LastRun(last: seq<Field>, d: byte, limit: nat, found: seq<nat>)
    requires d != QUOTE && (last == [] || IsRecord(last, d)) && |found| < limit
    ensures Widths(RenderRecord(last, d), d, limit, false, 1, found) ==
      found + (if |last| > 1 then [|last|] else [])
  {
    if last != [] {
      assert RenderRecord(last, d) + [] == RenderRecord(last, d);
      RecordRun(last, [], d, limit, 1, found);
    }
    assert found + [] == found;
  }

  lemma NoRoom(s: seq<byte>, d: byte, limit: nat, found: seq<nat>, more: seq<nat>)
    requires |found| == limit
    ensures Widths(s, d, limit, false, 1, found) == UpTo(found + more, limit)
  {
    assert (found + more)[..limit] == found;
  }

  lemma ExpectedStep(lines: seq<Line>, last: seq<Field>, found: seq<nat>)
    requires lines != []
    ensures found + [|lines[0].fields|] + Expected(lines[1..], last) == found + Expected(lines, last)
  {
    assert Lengths(lines) == [|lines[0].fields|] + Lengths(lines[1..]);
  }

  lemma NothingListed(last: seq<Field>, limit: nat, found: seq<nat>)
    requires |found| < limit
    ensures UpTo(found + Expected([], last), limit) == found + (if |last| > 1 then [|last|] else [])
  {
  }

  lemma {:induction false} TableRun(lines: seq<Line>, last: seq<Field>, d: byte, limit: nat, found: seq<nat>)
    requires d != QUOTE && d != CR && d != LF && IsTable(lines, last, d)
    requires |found| <= limit
    ensures Widths(RenderTable(lines, last, d), d, limit, false, 1, found) == UpTo(found + Expected(lines, last), limit)
  {
    hide Widths, RenderRecord, IsRecord, LineBreak, UpTo, Lengths;
    if |found| == limit {
      NoRoom(RenderTable(lines, last, d), d, limit, found, Expected(lines, last));
    } else if lines == [] {
      LastRun(last, d, limit, found);
      NothingListed(last, limit, found);
    } else {
      assert lines[0] in lines && forall line <- lines[1..] :: line in lines;
      var rest, width := RenderTable(lines[1..], last, d), |lines[0].fields|;
      BreakRun(lines[0].crlf, rest, d, limit, width, found);
      RecordRun(lines[0].fields, LineBreak(lines[0].crlf) + rest, d, limit, 1, found);
      TableRun(lines[1..], last, d, limit, found + [width]);
      ExpectedStep(lines, last, found);
    }
  }

  /** Scanning a rendered table finds the field count of each record that ends with a line
      break, whatever its quoted fields hold, and of a longer-than-one-field last record
      without one, up to the limit. */
  lemma ScannerMeasuresTables(lines: seq<Line>, last: seq<Field>, d: byte, limit: nat)
    requires d != QUOTE && d != CR && d != LF && IsTable(lines, last, d)
    ensures Widths(RenderTable(lines, last, d), d, limit, false, 1, []) ==
      UpTo(Lengths(lines) + (if |last| > 1 then [|last|] else []), limit)
  {
    TableRun(lines, last, d, limit, []);
    assert [] + Expected(lines, last) == Expected(lines, last);
  }
}
