/**
 The change log writer of tools/get-change-log-for-release.js, read back by a parser for section 2 of RFC 4180
 (line feed as the line break). The writer escapes every field except the version and the date.
 */
module ChangeLogCsv {
  import opened Sequences

  // ----- The writer -----

  datatype GitLog = GitLog(authorName: string, hash: string, message: string, date: string)

  const HEADERS: seq<string> := ["tester", "verified", "dev", "commit", "pr", "change", "group", "version", "date"]

  /** Every quote doubled. */
  function CsvEscape(original: string): string
  {
    if original == "" then ""
    else (if original[0] == '"' then "\"\"" else [original[0]]) + CsvEscape(original[1..])
  }

  function Quoted(content: string): string { "\"" + content + "\"" }

  predicate IsDigit(c: char) { '0' <= c <= '9' }

  /** White space and line terminators of ECMAScript. */
  predicate IsWhiteSpace(c: char)
  {
    || c == ' ' || '\t' <= c <= '\r' || c == '\U{00a0}' || c == '\U{feff}' || c == '\U{1680}'
    || '\U{2000}' <= c <= '\U{200a}' || c == '\U{2028}' || c == '\U{2029}' || c == '\U{202f}'
    || c == '\U{205f}' || c == '\U{3000}'
  }

  function TrimStart(s: string): string
  {
    if s == "" || !IsWhiteSpace(s[0]) then s else TrimStart(s[1..])
  }

  function TrimEnd(s: string): string
  {
    if s == "" || !IsWhiteSpace(s[|s| - 1]) then s else TrimEnd(s[..|s| - 1])
  }

  /** The first position of c, or the length. */
  function IndexOf(s: string, c: char): (i: nat)
    ensures i <= |s| && c !in s[..i]
    ensures i < |s| ==> s[i] == c
  {
    if s == "" || s[0] == c then 0
    else
      assert forall i: nat :: i < |s| ==> s[..i + 1] == [s[0]] + s[1..][..i];
      1 + IndexOf(s[1..], c)
  }

  function GetCommitType(commitMessage: string): string
  {
    var i := IndexOf(commitMessage, ':');
    if i == |commitMessage| then "NONE" else TrimEnd(TrimStart(commitMessage[..i]))
  }

  /** The text from i on is `(#digits)`. */
  predicate PrNumberAt(message: string, i: nat)
  {
    && i + 3 < |message|
    && message[i] == '(' && message[i + 1] == '#' && message[|message| - 1] == ')'
    && forall k :: i + 2 <= k < |message| - 1 ==> IsDigit(message[k])
  }

  function ExtractPrNumberFrom(message: string, i: nat): string
    requires i <= |message|
    decreases |message| - i
  {
    if i == |message| then ""
    else if PrNumberAt(message, i) then message[i + 2..|message| - 1]
    else ExtractPrNumberFrom(message, i + 1)
  }

  function ExtractPrNumber(message: string): string { ExtractPrNumberFrom(message, 0) }

  function MakePrLink(pr: string): string
  {
    if pr == "" then pr
    else "=HYPERLINK(\"https://github.com/microsoft/web-insights-service/pull/" + pr + "\", \"#" + pr + "\")"
  }

  function MakeCommitLink(commit: string): string
  {
    "=HYPERLINK(\"https://github.com/microsoft/web-insights-service/commit/" + commit + "\", \"" + commit + "\")"
  }

  function ShortHash(hash: string): string { if |hash| <= 7 then hash else hash[..7] }

  /** The seven filled cells of a line, as written between the quotes. */
  function Cells(log: GitLog, version: string): seq<string>
  {
    [ CsvEscape(log.authorName),
      CsvEscape(MakeCommitLink(ShortHash(log.hash))),
      CsvEscape(MakePrLink(ExtractPrNumber(log.message))),
      CsvEscape(log.message),
      CsvEscape(GetCommitType(log.message)),
      version,
      log.date ]
  }

  function QuotedAll(cells: seq<string>): seq<string> { seq(|cells|, i requires 0 <= i < |cells| => Quoted(cells[i])) }

  function Line(log: GitLog, version: string): string
  {
    ",," + Join(QuotedAll(Cells(log, version)), ",")
  }

  function Lines(logs: seq<GitLog>, version: string): seq<string>
  {
    if logs == [] then [] else [Line(logs[0], version)] + Lines(logs[1..], version)
  }

  function GenerateOutputContent(logs: seq<GitLog>, version: string): string
  {
    Join(HEADERS, ",") + "\n" + Join(Lines(logs, version), "\n")
  }

  // ----- The parser -----

  datatype State = FieldStart | Unquoted | InQuotes | QuoteSeen

  datatype Parsed = Records(records: seq<seq<string>>) | Malformed

  /** Reads on with an open field, an open record and the records closed so far. */
  function Scan(s: string, state: State, field: string, record: seq<string>, records: seq<seq<string>>): Parsed
    decreases |s|
  {
    if s == "" then
      if state == InQuotes then Malformed
      else if state == FieldStart && record == [] then Records(records) // the last line break is optional
      else Records(records + [record + [field]])
    else
      var c, rest := s[0], s[1..];
      if state == InQuotes then
        if c == '"' then Scan(rest, QuoteSeen, field, record, records)
        else Scan(rest, InQuotes, field + [c], record, records)
      else if c == '"' then
        if state == FieldStart then Scan(rest, InQuotes, field, record, records)
        else if state == QuoteSeen then Scan(rest, InQuotes, field + [c], record, records)
        else Malformed
      else if c == ',' then Scan(rest, FieldStart, "", record + [field], records)
      else if c == '\n' then Scan(rest, FieldStart, "", [], records + [record + [field]])
      else if c == '\r' || state == QuoteSeen then Malformed
      else Scan(rest, Unquoted, field + [c], record, records)
  }

  function Parse(s: string): Parsed { Scan(s, FieldStart, "", [], []) }

  // ----- Reading back -----

  function Texts(log: GitLog): seq<string>
  {
    [ log.authorName,
      MakeCommitLink(ShortHash(log.hash)),
      MakePrLink(ExtractPrNumber(log.message)),
      log.message,
      GetCommitType(log.message) ]
  }

  /** The record a commit stands for: tester and verified are left to fill in. */
  function Record(log: GitLog, version: string): seq<string>
  {
    ["", ""] + Texts(log) + [version, log.date]
  }

  function RecordsOf(logs: seq<GitLog>, version: string): seq<seq<string>>
  {
    if logs == [] then [] else [Record(logs[0], version)] + RecordsOf(logs[1..], version)
  }

  lemma ScanTwoQuotes(t: string, field: string, record: seq<string>, records: seq<seq<string>>)
    ensures Scan("\"\"" + t, InQuotes, field, record, records) == Scan(t, InQuotes, field + ['"'], record, records)
  {
    var s := "\"\"" + t;
    assert s[1..] == "\"" + t && s[1..][1..] == t;
  }

  lemma ScanOther(c: char, t: string, field: string, record: seq<string>, records: seq<seq<string>>)
    requires c != '"'
    ensures Scan([c] + t, InQuotes, field, record, records) == Scan(t, InQuotes, field + [c], record, records)
  {
    assert ([c] + t)[1..] == t;
  }

  /** Escaped text inside quotes reads as the original, whatever follows. */
  lemma {:induction false} ScanEscaped(v: string, t: string, field: string, record: seq<string>, records: seq<seq<string>>)
    ensures Scan(CsvEscape(v) + t, InQuotes, field, record, records) == Scan(t, InQuotes, field + v, record, records)
    decreases |v|
  {
    if v == "" {
      assert CsvEscape(v) + t == t && field + v == field;
    } else {
      var rest := CsvEscape(v[1..]) + t;
      ScanEscaped(v[1..], t, field + [v[0]], record, records);
      assert field + v == field + [v[0]] + v[1..];
      if v[0] == '"' {
        assert CsvEscape(v) + t == "\"\"" + rest;
        ScanTwoQuotes(rest, field, record, records);
      } else {
        assert CsvEscape(v) + t == [v[0]] + rest;
        ScanOther(v[0], rest, field, record, records);
      }
    }
  }

  lemma {:induction false} EscapeIsIdentity(v: string)
    requires '"' !in v
    ensures CsvEscape(v) == v
  {
    if v != "" {
      EscapeIsIdentity(v[1..]);
      assert v == [v[0]] + v[1..];
    }
  }

  /** A quoted cell. */
  lemma ScanQuoted(v: string, t: string, record: seq<string>, records: seq<seq<string>>)
    ensures Scan(Quoted(CsvEscape(v)) + t, FieldStart, "", record, records) == Scan(t, QuoteSeen, v, record, records)
  {
    var s := Quoted(CsvEscape(v)) + t;
    assert s[0] == '"' && s[1..] == CsvEscape(v) + ("\"" + t);
    ScanEscaped(v, "\"" + t, "", record, records);
    assert "" + v == v;
    assert ("\"" + t)[1..] == t;
  }

  function EscapedAll(vs: seq<string>): seq<string> { seq(|vs|, i requires 0 <= i < |vs| => CsvEscape(vs[i])) }

  /** A run of quoted cells. */
  lemma {:induction false} ScanCells(vs: seq<string>, t: string, record: seq<string>, records: seq<seq<string>>)
    requires |vs| > 0
    ensures Scan(Join(QuotedAll(EscapedAll(vs)), ",") + t, FieldStart, "", record, records)
         == Scan(t, QuoteSeen, vs[|vs| - 1], record + vs[..|vs| - 1], records)
    decreases |vs|
  {
    var cells := QuotedAll(EscapedAll(vs));
    if |vs| == 1 {
      ScanQuoted(vs[0], t, record, records);
      assert record + vs[..0] == record;
    } else {
      var rest := Join(cells[1..], ",") + t;
      CellsStep(vs);
      JoinStep(cells, t);
      ScanQuoted(vs[0], "," + rest, record, records);
      ScanComma(vs[0], rest, record, records);
      ScanCells(vs[1..], t, record + [vs[0]], records);
      RecordStep(vs, record);
    }
  }

  lemma CellsStep(vs: seq<string>)
    requires |vs| > 0
    ensures var cells := QuotedAll(EscapedAll(vs));
            |cells| == |vs| && cells[0] == Quoted(CsvEscape(vs[0])) && cells[1..] == QuotedAll(EscapedAll(vs[1..]))
  {
  }

  lemma JoinStep(cells: seq<string>, t: string)
    requires |cells| > 1
    ensures Join(cells, ",") + t == cells[0] + ("," + (Join(cells[1..], ",") + t))
  {
  }

  lemma ScanComma(v: string, t: string, record: seq<string>, records: seq<seq<string>>)
    ensures Scan("," + t, QuoteSeen, v, record, records) == Scan(t, FieldStart, "", record + [v], records)
  {
    assert ("," + t)[1..] == t;
  }

  lemma RecordStep(vs: seq<string>, record: seq<string>)
    requires |vs| > 1
    ensures record + [vs[0]] + vs[1..][..|vs| - 2] == record + vs[..|vs| - 1]
    ensures vs[1..][|vs| - 2] == vs[|vs| - 1]
  {
  }

  // ----- Unescaped cells -----

  /** What is read stays read: closed records, and the closed fields of the open record. */
  lemma {:induction false} ScanKeeps(
    s: string, state: State, field: string, record: seq<string>, records: seq<seq<string>>, rs: seq<seq<string>>)
    requires Scan(s, state, field, record, records) == Records(rs)
    ensures records <= rs
    ensures record != [] ==> |rs| > |records| && record <= rs[|records|]
    decreases |s|
  {
    if s != "" {
      var c, rest := s[0], s[1..];
      if state == InQuotes {
        if c == '"' {
          ScanKeeps(rest, QuoteSeen, field, record, records, rs);
        } else {
          ScanKeeps(rest, InQuotes, field + [c], record, records, rs);
        }
      } else if c == '"' {
        ScanKeeps(rest, InQuotes, if state == QuoteSeen then field + [c] else field, record, records, rs);
      } else if c == ',' {
        ScanKeeps(rest, FieldStart, "", record + [field], records, rs);
      } else if c == '\n' {
        ScanKeeps(rest, FieldStart, "", [], records + [record + [field]], rs);
      } else {
        ScanKeeps(rest, Unquoted, field + [c], record, records, rs);
      }
    }
  }

  ghost predicate HasField(rs: seq<seq<string>>, i: nat, j: nat, f: string)
  {
    i < |rs| && j < |rs[i]| && rs[i][j] == f
  }

  /** The converse of ScanEscaped: a quoted cell that reads as field + g was written as g escaped. */
  lemma {:induction false} ReadWasEscaped(s: string, field: string, record: seq<string>, records: seq<seq<string>>, rs: seq<seq<string>>)
    returns (g: string)
    requires Scan(s, InQuotes, field, record, records) == Records(rs)
    ensures HasField(rs, |records|, |record|, field + g) && CsvEscape(g) + "\"" <= s
    decreases |s|
  {
    var rest := s[1..];
    if s[0] != '"' {
      var h := ReadWasEscaped(rest, field + [s[0]], record, records, rs);
      g := [s[0]] + h;
      assert s == [s[0]] + rest;
      EscapedStep(s[0], h, field);
    } else if rest != "" && rest[0] == '"' {
      assert s == "\"\"" + rest[1..];
      ScanTwoQuotes(rest[1..], field, record, records);
      var h := ReadWasEscaped(rest[1..], field + ['"'], record, records, rs);
      g := ['"'] + h;
      EscapedStep('"', h, field);
    } else {
      g := "";
      assert field + g == field;
      ReadAtQuote(rest, field, record, records, rs);
    }
  }

  lemma EscapedStep(c: char, h: string, field: string)
    ensures field + ([c] + h) == field + [c] + h
    ensures CsvEscape([c] + h) + "\"" == (if c == '"' then "\"\"" else [c]) + (CsvEscape(h) + "\"")
  {
    assert ([c] + h)[1..] == h;
  }

  /** Behind its closing quote a field is closed or the text is malformed. */
  lemma ReadAtQuote(t: string, field: string, record: seq<string>, records: seq<seq<string>>, rs: seq<seq<string>>)
    requires (t != "" ==> t[0] != '"') && Scan(t, QuoteSeen, field, record, records) == Records(rs)
    ensures HasField(rs, |records|, |record|, field)
  {
    if t != "" && t[0] == ',' {
      ScanKeeps(t[1..], FieldStart, "", record + [field], records, rs);
      assert rs[|records|][|record|] == (record + [field])[|record|];
    } else if t != "" {
      ScanKeeps(t[1..], FieldStart, "", [], records + [record + [field]], rs);
      assert rs[|records|] == (records + [record + [field]])[|records|];
    }
  }

  function Quotes(k: nat): string { seq(k, i => '"') }

  /** Text after its closing quote does not start with more quotes than it is written with. */
  lemma {:induction false} QuotesRunOut(w: string, t: string, k: nat)
    requires k > 0 && (t != "" ==> t[0] != '"')
    ensures !(Quotes(k) + CsvEscape(w) + "\"" <= w + "\"" + t)
    decreases |w|
  {
    var a, b := Quotes(k) + CsvEscape(w) + "\"", w + "\"" + t;
    assert a[0] == '"';
    if w == "" {
      assert a[1] == '"';
    } else if w[0] == '"' {
      var a', b' := a[1..], b[1..];
      QuotesRunOut(w[1..], t, k + 1);
      assert a' == Quotes(k + 1) + CsvEscape(w[1..]) + "\"";
      assert b' == w[1..] + "\"" + t;
      assert a <= b ==> a' <= b';
    }
  }

  /** Text that was not escaped starts like its escaped form only when it holds no quote. */
  lemma {:induction false} RawIsNotEscaped(v: string, t: string)
    requires '"' in v && (t != "" ==> t[0] != '"')
    ensures !(CsvEscape(v) + "\"" <= v + "\"" + t)
    decreases |v|
  {
    var a, b := CsvEscape(v) + "\"", v + "\"" + t;
    var a', b' := a[1..], b[1..];
    assert b' == v[1..] + "\"" + t;
    assert a <= b ==> a' <= b';
    if v[0] == '"' {
      QuotesRunOut(v[1..], t, 1);
      assert a' == Quotes(1) + CsvEscape(v[1..]) + "\"";
    } else {
      assert v == [v[0]] + v[1..];
      RawIsNotEscaped(v[1..], t);
      assert a' == CsvEscape(v[1..]) + "\"";
    }
  }

  /** A cell written without escaping reads back exactly when it holds no quote. */
  lemma ScanRaw(v: string, t: string, record: seq<string>, records: seq<seq<string>>)
    requires t != "" ==> t[0] != '"'
    ensures '"' !in v ==>
              Scan(Quoted(v) + t, FieldStart, "", record, records) == Scan(t, QuoteSeen, v, record, records)
    ensures '"' in v ==>
              forall rs :: Scan(Quoted(v) + t, FieldStart, "", record, records) == Records(rs) ==>
                             !HasField(rs, |records|, |record|, v)
  {
    if '"' !in v {
      EscapeIsIdentity(v);
      ScanQuoted(v, t, record, records);
    } else {
      var s := v + "\"" + t;
      assert (Quoted(v) + t)[1..] == s;
      RawIsNotEscaped(v, t);
      forall rs | Scan(s, InQuotes, "", record, records) == Records(rs) ensures !HasField(rs, |records|, |record|, v) {
        var g := ReadWasEscaped(s, "", record, records, rs);
        assert "" + g == g;
      }
    }
  }

  // ----- The round trip -----

  lemma {:induction false} JoinAppend(a: seq<string>, b: seq<string>, separator: string)
    requires a != [] && b != []
    ensures Join(a + b, separator) == Join(a, separator) + (separator + Join(b, separator))
  {
    FirstOfBoth(a, b);
    if |a| > 1 {
      JoinAppend(a[1..], b, separator);
      var rest, tail := Join(a[1..], separator), separator + Join(b, separator);
      Reassociate(separator, rest, tail);
      Reassociate(a[0], separator + rest, tail);
    }
  }

  lemma FirstOfBoth(a: seq<string>, b: seq<string>)
    requires a != []
    ensures (a + b)[0] == a[0] && (a + b)[1..] == a[1..] + b
    ensures |a| == 1 ==> (a + b)[1..] == b
  {
  }

  /** The escaped part of a line, up to the cell that holds the version. */
  lemma ScanEscapedPart(vs: seq<string>, version: string, date: string, t: string, records: seq<seq<string>>)
    requires vs != []
    ensures Scan(",," + Join(QuotedAll(EscapedAll(vs) + [version, date]), ",") + t, FieldStart, "", [], records)
         == Scan(Quoted(version) + ("," + (Quoted(date) + t)), FieldStart, "", ["", ""] + vs, records)
  {
    var raw := [Quoted(version), Quoted(date)];
    var escaped := QuotedAll(EscapedAll(vs));
    assert QuotedAll(EscapedAll(vs) + [version, date]) == escaped + raw;
    JoinAppend(escaped, raw, ",");
    var tail := Quoted(version) + ("," + (Quoted(date) + t));
    assert Join(raw, ",") + t == tail by {
      assert raw[1..] == [Quoted(date)];
      assert Join(raw, ",") == Quoted(version) + ("," + Quoted(date));
    }
    var cells := Join(escaped, ",") + ("," + tail);
    assert ",," + Join(QuotedAll(EscapedAll(vs) + [version, date]), ",") + t == ",," + cells;
    ScanTwoCommas(cells, records);
    ScanCells(vs, "," + tail, ["", ""], records);
    assert ("," + tail)[1..] == tail;
    assert ["", ""] + vs[..|vs| - 1] + [vs[|vs| - 1]] == ["", ""] + vs;
  }

  lemma ScanTwoCommas(t: string, records: seq<seq<string>>)
    ensures Scan(",," + t, FieldStart, "", [], records) == Scan(t, FieldStart, "", ["", ""], records)
  {
    var s := ",," + t;
    assert s[1..] == "," + t && s[1..][1..] == t;
    assert [] + [""] + [""] == ["", ""];
  }

  ghost predicate Clean(logs: seq<GitLog>, version: string)
  {
    logs == [] || ('"' !in version && forall i :: 0 <= i < |logs| ==> '"' !in logs[i].date)
  }

  /** What a line with open tail t reads as when its record is r. */
  function ScanAfter(r: seq<string>, t: string, records: seq<seq<string>>): Parsed
  {
    if t == "" then Records(records + [r]) else Scan(t[1..], FieldStart, "", [], records + [r])
  }

  ghost predicate NeverRead(parsed: Parsed, i: nat, r: seq<string>)
  {
    parsed.Records? ==> !(i < |parsed.records| && parsed.records[i] == r)
  }

  /** The two raw cells that end a line. */
  lemma ScanRawPart(r: seq<string>, version: string, date: string, t: string, records: seq<seq<string>>)
    requires t != "" ==> t[0] == '\n'
    ensures var parsed := Scan(Quoted(version) + ("," + (Quoted(date) + t)), FieldStart, "", r, records);
            if '"' !in version && '"' !in date then parsed == ScanAfter(r + [version, date], t, records)
            else NeverRead(parsed, |records|, r + [version, date])
  {
    var afterVersion := "," + (Quoted(date) + t);
    ScanRaw(version, afterVersion, r, records);
    assert afterVersion[1..] == Quoted(date) + t;
    ScanRaw(date, t, r + [version], records);
    assert r + [version] + [date] == r + [version, date];
  }

  /** One line: it reads as its record when version and date are clean, and as something else otherwise. */
  lemma ScanOneLine(log: GitLog, version: string, t: string, records: seq<seq<string>>)
    requires t != "" ==> t[0] == '\n'
    ensures var parsed := Scan(Line(log, version) + t, FieldStart, "", [], records);
            if '"' !in version && '"' !in log.date then parsed == ScanAfter(Record(log, version), t, records)
            else NeverRead(parsed, |records|, Record(log, version))
  {
    var vs := Texts(log);
    assert Cells(log, version) == EscapedAll(vs) + [version, log.date];
    assert Record(log, version) == ["", ""] + vs + [version, log.date];
    ScanEscapedPart(vs, version, log.date, t, records);
    ScanRawPart(["", ""] + vs, version, log.date, t, records);
  }

  /** The text behind the first line. */
  function Tail(logs: seq<GitLog>, version: string): string
    requires logs != []
  {
    if |logs| == 1 then "" else "\n" + Join(Lines(logs[1..], version), "\n")
  }

  lemma LinesStep(logs: seq<GitLog>, version: string)
    requires logs != []
    ensures Join(Lines(logs, version), "\n") == Line(logs[0], version) + Tail(logs, version)
  {
    var first, rest := Line(logs[0], version), Lines(logs[1..], version);
    assert rest == [] <==> |logs| == 1;
    assert ([first] + rest)[1..] == rest;
    assert first + "" == first;
  }

  lemma HeadInside(a: seq<seq<string>>, r: seq<string>, b: seq<seq<string>>)
    ensures a + ([r] + b) == a + [r] + b && (a + ([r] + b))[|a|] == r
  {
  }

  lemma RecordsStep(logs: seq<GitLog>, version: string, records: seq<seq<string>>)
    requires logs != []
    ensures records + RecordsOf(logs, version) == records + [Record(logs[0], version)] + RecordsOf(logs[1..], version)
    ensures !NeverRead(Records(records + RecordsOf(logs, version)), |records|, Record(logs[0], version))
  {
    HeadInside(records, Record(logs[0], version), RecordsOf(logs[1..], version));
  }

  lemma CleanStep(logs: seq<GitLog>, version: string)
    requires logs != []
    ensures Clean(logs, version) <==> '"' !in version && '"' !in logs[0].date && Clean(logs[1..], version)
  {
    assert forall i :: 1 <= i < |logs| ==> logs[i] == logs[1..][i - 1];
  }

  lemma {:induction false} ScanLines(logs: seq<GitLog>, version: string, records: seq<seq<string>>)
    ensures Scan(Join(Lines(logs, version), "\n"), FieldStart, "", [], records) == Records(records + RecordsOf(logs, version))
            <==> Clean(logs, version)
    decreases |logs|
  {
    if logs == [] {
      assert records + RecordsOf(logs, version) == records;
    } else {
      var r := Record(logs[0], version);
      LinesStep(logs, version);
      RecordsStep(logs, version, records);
      CleanStep(logs, version);
      ScanOneLine(logs[0], version, Tail(logs, version), records);
      ScanTail(logs, version, r, records);
      ScanLines(logs[1..], version, records + [r]);
    }
  }

  lemma ScanTail(logs: seq<GitLog>, version: string, r: seq<string>, records: seq<seq<string>>)
    requires logs != []
    ensures ScanAfter(r, Tail(logs, version), records)
         == Scan(Join(Lines(logs[1..], version), "\n"), FieldStart, "", [], records + [r])
  {
    if |logs| > 1 {
      assert Tail(logs, version)[1..] == Join(Lines(logs[1..], version), "\n");
    }
  }

  ghost predicate Plain(f: string)
  {
    f != "" && forall c :: c in f ==> c != '"' && c != ',' && c != '\n' && c != '\r'
  }

  lemma {:induction false} ScanPlain(f: string, t: string, state: State, field: string, record: seq<string>, records: seq<seq<string>>)
    requires Plain(f) && (state == FieldStart || state == Unquoted)
    ensures Scan(f + t, state, field, record, records) == Scan(t, Unquoted, field + f, record, records)
    decreases |f|
  {
    assert forall c :: c in f[1..] ==> c in f;
    assert f[0] in f && (f + t)[0] == f[0] && (f + t)[1..] == f[1..] + t;
    assert field + f == field + [f[0]] + f[1..];
    if |f| == 1 {
      assert f[1..] + t == t && field + [f[0]] == field + f;
    } else {
      ScanPlain(f[1..], t, Unquoted, field + [f[0]], record, records);
    }
  }

  lemma {:induction false} ScanPlainLine(fs: seq<string>, t: string, record: seq<string>)
    requires fs != [] && forall f :: f in fs ==> Plain(f)
    ensures Scan(Join(fs, ",") + "\n" + t, FieldStart, "", record, []) == Scan(t, FieldStart, "", [], [record + fs])
    decreases |fs|
  {
    var f := fs[0];
    assert Plain(f) && "" + f == f;
    if |fs| == 1 {
      assert Join(fs, ",") + "\n" + t == f + ("\n" + t);
      ScanPlain(f, "\n" + t, FieldStart, "", record, []);
      assert ("\n" + t)[1..] == t && record + [f] == record + fs && [] + [record + fs] == [record + fs];
    } else {
      var rest := Join(fs[1..], ",") + "\n" + t;
      assert Join(fs, ",") + "\n" + t == f + ("," + rest);
      ScanPlain(f, "," + rest, FieldStart, "", record, []);
      assert ("," + rest)[1..] == rest;
      ScanPlainLine(fs[1..], t, record + [f]);
      assert record + [f] + fs[1..] == record + fs;
    }
  }

  lemma ScanHeaders(t: string)
    ensures Scan(Join(HEADERS, ",") + "\n" + t, FieldStart, "", [], []) == Scan(t, FieldStart, "", [], [HEADERS])
  {
    forall i | 0 <= i < |HEADERS| ensures Plain(HEADERS[i]) {
    }
    ScanPlainLine(HEADERS, t, []);
    assert [] + HEADERS == HEADERS;
  }

  /**
   The change log reads back as the header and one record of the nine original fields per commit, whatever authors,
   hashes and messages hold, exactly when it is empty or neither version nor any date holds a quote.
   */
  lemma RoundTrip(logs: seq<GitLog>, version: string)
    ensures Parse(GenerateOutputContent(logs, version)) == Records([HEADERS] + RecordsOf(logs, version))
            <==> Clean(logs, version)
  {
    ScanHeaders(Join(Lines(logs, version), "\n"));
    ScanLines(logs, version, [HEADERS]);
  }

  // ----- What the fields say -----

  /** What stands under each header: the first two columns are left to fill in. */
  function Under(log: GitLog, version: string, header: string): string
  {
    match header
    case "dev" => log.authorName
    case "commit" =>
      var short := if |log.hash| < 7 then log.hash else log.hash[..7];
      "=HYPERLINK(\"https://github.com/microsoft/web-insights-service/commit/" + short + "\", \"" + short + "\")"
    case "pr" =>
      var pr := ExtractPrNumber(log.message);
      if pr == "" then ""
      else "=HYPERLINK(\"https://github.com/microsoft/web-insights-service/pull/" + pr + "\", \"#" + pr + "\")"
    case "change" => log.message
    case "group" => GetCommitType(log.message)
    case "version" => version
    case "date" => log.date
    case _ => ""
  }

  /** Each record has one field for each header, with what belongs under it. */
  lemma Columns(log: GitLog, version: string, i: nat)
    requires i < 9
    ensures |HEADERS| == |Record(log, version)| == 9
    ensures Record(log, version)[i] == Under(log, version, HEADERS[i])
    ensures i < 2 ==> Record(log, version)[i] == ""
    ensures HEADERS == ["tester", "verified"] + ["dev", "commit", "pr", "change", "group", "version", "date"]
  {
    RecordAt(Texts(log), version, log.date);
  }

  lemma RecordAt(texts: seq<string>, version: string, date: string)
    requires |texts| == 5
    ensures var r := ["", ""] + texts + [version, date];
            && |r| == 9 && r[0] == r[1] == "" && r[7] == version && r[8] == date
            && r[2] == texts[0] && r[3] == texts[1] && r[4] == texts[2] && r[5] == texts[3] && r[6] == texts[4]
  {
  }

  /** The characters String.prototype.trim removes. */
  lemma WhiteSpaceIs(c: char)
    ensures IsWhiteSpace(c) <==>
            c in {'\t', '\n', '\U{000b}', '\U{000c}', '\r', ' ', '\U{00a0}', '\U{1680}',
                  '\U{2000}', '\U{2001}', '\U{2002}', '\U{2003}', '\U{2004}', '\U{2005}', '\U{2006}', '\U{2007}',
                  '\U{2008}', '\U{2009}', '\U{200a}', '\U{2028}', '\U{2029}', '\U{202f}', '\U{205f}', '\U{3000}', '\U{feff}'}
  {
  }

  ghost predicate Blank(s: string)
  {
    forall c :: c in s ==> IsWhiteSpace(c)
  }

  ghost predicate Trimmed(s: string)
  {
    s != "" ==> !IsWhiteSpace(s[0]) && !IsWhiteSpace(s[|s| - 1])
  }

  lemma {:induction false} TrimStartCuts(s: string) returns (cut: string)
    ensures s == cut + TrimStart(s) && Blank(cut)
    ensures TrimStart(s) != "" ==> !IsWhiteSpace(TrimStart(s)[0])
    decreases |s|
  {
    if s == "" || !IsWhiteSpace(s[0]) {
      cut := "";
    } else {
      var rest := TrimStartCuts(s[1..]);
      cut := [s[0]] + rest;
      assert s == [s[0]] + s[1..];
      assert [s[0]] + (rest + TrimStart(s)) == cut + TrimStart(s);
    }
  }

  lemma {:induction false} TrimEndCuts(s: string) returns (cut: string)
    ensures s == TrimEnd(s) + cut && Blank(cut)
    ensures TrimEnd(s) != "" ==> !IsWhiteSpace(TrimEnd(s)[|TrimEnd(s)| - 1])
    decreases |s|
  {
    if s == "" || !IsWhiteSpace(s[|s| - 1]) {
      cut := "";
    } else {
      var rest := TrimEndCuts(s[..|s| - 1]);
      cut := rest + [s[|s| - 1]];
    }
  }

  lemma TrimCuts(s: string) returns (before: string, after: string)
    ensures s == before + TrimEnd(TrimStart(s)) + after
    ensures Blank(before) && Blank(after) && Trimmed(TrimEnd(TrimStart(s)))
  {
    var rest := TrimStart(s);
    before := TrimStartCuts(s);
    after := TrimEndCuts(rest);
    assert s == before + (TrimEnd(rest) + after);
    assert TrimEnd(rest) != "" ==> TrimEnd(rest)[0] == rest[0];
  }

  /** The commit type is the trimmed text in front of the first colon. */
  lemma CommitTypeMeaning(message: string) returns (before: string, after: string, rest: string)
    ensures ':' !in message ==> GetCommitType(message) == "NONE"
    ensures ':' in message ==>
              && message == before + GetCommitType(message) + after + ":" + rest
              && ':' !in before + GetCommitType(message) + after
              && Blank(before) && Blank(after) && Trimmed(GetCommitType(message))
  {
    var i := IndexOf(message, ':');
    before, after, rest := "", "", "";
    if i == |message| {
      assert message[..i] == message;
    } else {
      var head := message[..i];
      rest := message[i + 1..];
      assert message == head + ":" + rest;
      before, after := TrimCuts(head);
    }
  }

  ghost predicate EndsWithPrNumber(message: string, text: string, digits: string)
  {
    message == text + "(#" + digits + ")" && digits != "" && forall c :: c in digits ==> c in "0123456789"
  }

  lemma {:induction false} ExtractFindsFirst(message: string, i: nat, j: nat)
    requires i <= j && PrNumberAt(message, j) && forall k: nat :: i <= k < j ==> !PrNumberAt(message, k)
    ensures ExtractPrNumberFrom(message, i) == message[j + 2..|message| - 1]
    decreases j - i
  {
    if i < j {
      ExtractFindsFirst(message, i + 1, j);
    }
  }

  lemma {:induction false} ExtractFindsNone(message: string, i: nat)
    requires i <= |message| && forall k: nat :: i <= k ==> !PrNumberAt(message, k)
    ensures ExtractPrNumberFrom(message, i) == ""
    decreases |message| - i
  {
    if i < |message| {
      ExtractFindsNone(message, i + 1);
    }
  }

  /** The number is the digits of a final `(#digits)`, and empty exactly when the message does not end so. */
  lemma PrNumberMeaning(message: string, text: string, digits: string)
    ensures EndsWithPrNumber(message, text, digits) ==> ExtractPrNumber(message) == digits
    ensures ExtractPrNumber(message) != "" <==> exists text, digits :: EndsWithPrNumber(message, text, digits)
  {
    forall text: string, digits: string | EndsWithPrNumber(message, text, digits) ensures ExtractPrNumber(message) == digits {
      ExtractEnding(message, text, digits);
    }
    if forall k: nat :: !PrNumberAt(message, k) {
      ExtractFindsNone(message, 0);
    } else {
      var k: nat :| PrNumberAt(message, k);
      var d := message[k + 2..|message| - 1];
      forall c | c in d ensures c in "0123456789" {
        DigitIs(c);
      }
      assert message == message[..k] + "(#" + d + ")";
      assert EndsWithPrNumber(message, message[..k], d);
    }
  }

  lemma DigitIs(c: char)
    ensures IsDigit(c) <==> c in "0123456789"
  {
  }

  lemma ExtractEnding(message: string, text: string, digits: string)
    requires EndsWithPrNumber(message, text, digits)
    ensures ExtractPrNumber(message) == digits
  {
    forall k | 0 <= k < |digits| ensures IsDigit(digits[k]) {
      DigitIs(digits[k]);
    }
    var j := |text|;
    assert message[j..] == "(#" + digits + ")";
    assert forall k | j + 2 <= k < |message| - 1 :: message[k] == digits[k - j - 2];
    assert PrNumberAt(message, j);
    forall k: nat | k < j ensures !PrNumberAt(message, k) {
      assert message[j] == '(' && (k + 2 <= j ==> !IsDigit(message[j]));
    }
    ExtractFindsFirst(message, 0, j);
    assert message[j + 2..|message| - 1] == digits;
  }

  /** Text between fixed text, twice, is determined by the whole. */
  lemma SameBetween(a: string, x: string, b: string, y: string, c: string)
    requires a + x + b + x + c == a + y + b + y + c
    ensures x == y
  {
    var s, t := a + x + b + x + c, a + y + b + y + c;
    assert |s| == |a| + 2 * |x| + |b| + |c| && |t| == |a| + 2 * |y| + |b| + |c|;
    assert s[|a|..|a| + |x|] == x && t[|a|..|a| + |y|] == y;
  }

  /** Commits with different short hashes have different links, and pull requests with different numbers, or none. */
  lemma LinksTell(a: string, b: string)
    ensures MakeCommitLink(a) == MakeCommitLink(b) <==> a == b
    ensures MakePrLink(a) == MakePrLink(b) <==> a == b
  {
    var commit, pull := "=HYPERLINK(\"https://github.com/microsoft/web-insights-service/commit/", "=HYPERLINK(\"https://github.com/microsoft/web-insights-service/pull/";
    if MakeCommitLink(a) == MakeCommitLink(b) {
      SameBetween(commit, a, "\", \"", b, "\")");
    }
    if a != "" && b != "" && MakePrLink(a) == MakePrLink(b) {
      SameBetween(pull, a, "\", \"#", b, "\")");
    }
  }
}
