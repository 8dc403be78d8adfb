/** The id table string2id_map.csv: printed by the recorder (parsePinTrace.cpp), read by
    the compiler pass (embedDtree.cpp), which numbers its lines, and read by the runtime
    (decrypt_probe.cpp), which turns each line into a set of functions. */
module ChainIds {
  import opened Text
  import opened StringSets

  /** One line of the table: a flattened set and its id. */
  datatype Row = Row(text: string, id: nat)

  // ---- Printing -----------------------------------------------------------------

  function Line(row: Row): string {
    row.text + "," + Decimal(row.id)
  }

  function Lines(rows: seq<Row>): (lines: seq<string>)
    ensures |lines| == |rows| && forall i :: 0 <= i < |rows| ==> lines[i] == Line(rows[i])
  {
    seq(|rows|, i requires 0 <= i < |rows| => Line(rows[i]))
  }

  /** Every line is preceded by a newline, so the file starts with an empty line. */
  function TableText(lines: seq<string>): string {
    if lines == [] then "" else "\n" + lines[0] + TableText(lines[1..])
  }

  lemma {:induction false} TableTextAppend(lines: seq<string>, line: string)
    ensures TableText(lines + [line]) == TableText(lines) + "\n" + line
  {
    if lines == [] {
      assert lines + [line] == [line];
    } else {
      assert (lines + [line])[1..] == lines[1..] + [line];
      TableTextAppend(lines[1..], line);
    }
  }

  /** Chains first, in the order of their map, then the other strings that got an id. */
  method PrintTable(chains: seq<Row>, others: seq<Row>) returns (text: string)
    ensures text == TableText(Lines(chains + others))
  {
    text := "";
    for i := 0 to |chains|
      invariant text == TableText(Lines(chains[..i]))
    {
      AppendRow(chains[..i], chains[i]);
      assert chains[..i + 1] == chains[..i] + [chains[i]];
      text := text + "\n" + chains[i].text + "," + Decimal(chains[i].id);
    }
    assert chains[..|chains|] == chains + others[..0];
    for i := 0 to |others|
      invariant text == TableText(Lines(chains + others[..i]))
    {
      AppendRow(chains + others[..i], others[i]);
      assert chains + others[..i + 1] == chains + others[..i] + [others[i]];
      text := text + "\n" + others[i].text + "," + Decimal(others[i].id);
    }
    assert others[..|others|] == others;
  }

  lemma AppendRow(rows: seq<Row>, row: Row)
    ensures TableText(Lines(rows + [row])) == TableText(Lines(rows)) + "\n" + row.text + "," + Decimal(row.id)
  {
    assert Lines(rows + [row]) == Lines(rows) + [Line(row)];
    TableTextAppend(Lines(rows), Line(row));
  }

  /** The format, in one file. */
  lemma TableExample()
    ensures Flatten(["f", "g"]) == ";f;g;"
    ensures TableText(Lines([Row(";", 1), Row(";f;g;", 0)])) == "\n;,1\n;f;g;,0"
  {
    assert Decimal(0) == "0" && Decimal(1) == "1";
    assert Line(Row(";", 1)) == ";,1" && Line(Row(";f;g;", 0)) == ";f;g;,0";
    var names := ["f", "g"];
    assert names[..1] == ["f"] && names[..1][..0] == [];
    var lines := Lines([Row(";", 1), Row(";f;g;", 0)]);
    assert lines == [";,1", ";f;g;,0"] && lines[1..] == [";f;g;,0"];
  }

  // ---- The compiler's reader --------------------------------------------------------

  /** global_id2string_map, global_string2id_map and stringId_2counter_map. */
  datatype Ids = Ids(textOf: map<nat, string>, idOf: map<string, nat>, counterOf: map<nat, nat>, count: nat)

  function LineText(line: string): string {
    Token(SkipSpaces(line), ',')
  }

  /** A line without a second field has id 0; a field that is no number is an error. */
  function LineId(line: string): Option<nat> {
    var rest := Rest(SkipSpaces(line), ',');
    if rest == "" then Some(0) else Stoi(Token(rest, ','))
  }

  /** One line: None is the exception that stoi throws. */
  function Next(ids: Ids, line: string): Option<Ids> {
    if line == "" then Some(ids)
    else
      match LineId(line)
      case None => None
      case Some(id) =>
        var text := LineText(line);
        Some(Ids(ids.textOf[id := text], ids.idOf[text := id], ids.counterOf[id := ids.count + 1], ids.count + 1))
  }

  function Loaded(lines: seq<string>): Option<Ids> {
    if lines == [] then Some(Ids(map[], map[], map[], 0))
    else
      match Loaded(lines[..|lines| - 1])
      case None => None
      case Some(ids) => Next(ids, lines[|lines| - 1])
  }

  lemma LoadedNext(lines: seq<string>, line: string)
    ensures Loaded(lines).Some? ==> Loaded(lines + [line]) == Next(Loaded(lines).value, line)
    ensures Loaded(lines).None? ==> Loaded(lines + [line]).None?
  {
    assert (lines + [line])[..|lines|] == lines;
  }

  lemma AppendLast(lines: seq<string>, more: seq<string>)
    requires more != []
    ensures lines + more == (lines + more[..|more| - 1]) + [more[|more| - 1]]
  {
  }

  lemma {:induction false} LoadedFails(lines: seq<string>, more: seq<string>)
    requires Loaded(lines).None?
    ensures Loaded(lines + more).None?
    decreases |more|
  {
    if more == [] {
      assert lines + more == lines;
    } else {
      var line := more[|more| - 1];
      LoadedFails(lines, more[..|more| - 1]);
      AppendLast(lines, more);
      LoadedNext(lines + more[..|more| - 1], line);
    }
  }

  method LoadLine(ids: Ids, line: string) returns (result: Option<Ids>)
    ensures result == Next(ids, line)
  {
    if line == "" { return Some(ids); }
    var ss := SkipSpaces(line);
    var text := Token(ss, ',');
    ss := Rest(ss, ',');
    var id := 0;
    if ss != "" {
      var number := Stoi(Token(ss, ','));
      if number.None? { return None; }
      id := number.value;
    }
    result := Some(Ids(ids.textOf[id := text], ids.idOf[text := id],
                       ids.counterOf[id := ids.count + 1], ids.count + 1));
  }

  /** The loop over the id table in doInitialization. */
  method LoadIds(text: string) returns (result: Option<Ids>)
    ensures result == Loaded(Split(text, '\n'))
  {
    result := Some(Ids(map[], map[], map[], 0));
    var rest := text;
    ghost var done: seq<string> := [];
    while rest != "" && result.Some?
      invariant Halfway(text, '\n', done, rest)
      invariant Loaded(done) == result
      decreases |rest|
    {
      HalfwayNext(text, '\n', done, rest);
      var line := Token(rest, '\n');
      LoadedNext(done, line);
      rest := Rest(rest, '\n');
      done := done + [line];
      result := LoadLine(result.value, line);
    }
    if result.None? {
      LoadedFails(done, Split(rest, '\n'));
    } else {
      HalfwayEnd(text, '\n', done);
    }
  }

  // ---- The runtime's reader ----------------------------------------------------------

  function Nonempty(parts: seq<string>): set<string> {
    set p | p in parts && p != ""
  }

  function PredSet(line: string): set<string> {
    var parts := Split(line, ';');
    if parts == [] then {} else Nonempty(parts) - {parts[|parts| - 1]}
  }

  function PredSets(lines: seq<string>): (sets: seq<set<string>>)
    ensures |sets| == |lines| && forall i :: 0 <= i < |lines| ==> sets[i] == PredSet(lines[i])
  {
    seq(|lines|, i requires 0 <= i < |lines| => PredSet(lines[i]))
  }

  lemma NonemptyNext(parts: seq<string>, part: string)
    ensures Nonempty(parts + [part]) == Nonempty(parts) + if part == "" then {} else {part}
  {
  }

  method ReadPredSet(line: string) returns (preds: set<string>)
    ensures preds == PredSet(line)
  {
    preds := {};
    var parts := Split(line, ';');
    if |parts| == 0 { return; }
    for i := 0 to |parts|
      invariant preds == Nonempty(parts[..i])
    {
      NonemptyNext(parts[..i], parts[i]);
      assert parts[..i + 1] == parts[..i] + [parts[i]];
      if parts[i] == "" { continue; }
      preds := preds + {parts[i]};
    }
    assert parts[..|parts|] == parts;
    preds := preds - {parts[|parts| - 1]};
  }

  /** init_pred_sets: one set per line, the empty first line included. */
  method InitPredSets(text: string) returns (predSets: seq<set<string>>)
    ensures predSets == PredSets(Split(text, '\n'))
  {
    predSets := [];
    var rest := text;
    ghost var done: seq<string> := [];
    while rest != ""
      invariant Halfway(text, '\n', done, rest)
      invariant predSets == PredSets(done)
      decreases |rest|
    {
      HalfwayNext(text, '\n', done, rest);
      var line := Token(rest, '\n');
      rest := Rest(rest, '\n');
      done := done + [line];
      var preds := ReadPredSet(line);
      predSets := predSets + [preds];
    }
    HalfwayEnd(text, '\n', done);
  }

  // ---- Both readers agree with the printer ---------------------------------------------

  /** Function names are nonempty and free of the separators. */
  predicate Proper(name: string) {
    name != "" && ';' !in name && ',' !in name && '\n' !in name
  }

  predicate AllProper(s: seq<string>) {
    forall i :: 0 <= i < |s| ==> Proper(s[i])
  }

  predicate Flat(text: string) {
    text != "" && text[0] == ';' && ',' !in text && '\n' !in text
  }

  /** What can be in the table: flattened texts, each with its own id. */
  predicate WellFormed(rows: seq<Row>) {
    && (forall i :: 0 <= i < |rows| ==> Flat(rows[i].text))
    && (forall i, j :: 0 <= i < j < |rows| ==> rows[i].id != rows[j].id)
  }

  lemma {:induction false} FlattenIsFlat(s: seq<string>)
    requires AllProper(s)
    ensures Flat(Flatten(s))
  {
    if s != [] { FlattenIsFlat(s[..|s| - 1]); }
  }

  lemma FirstLine(first: string, lines: seq<string>)
    requires lines != []
    ensures first + TableText(lines) == first + ['\n'] + (lines[0] + TableText(lines[1..]))
  {
  }

  lemma {:induction false} SplitLines(first: string, lines: seq<string>)
    requires first != "" || lines != []
    requires '\n' !in first && forall line :: line in lines ==> '\n' !in line && line != ""
    ensures Split(first + TableText(lines), '\n') == [first] + lines
    decreases |lines|
  {
    if lines == [] {
      assert first + TableText(lines) == first;
      TokenLast(first, '\n');
    } else {
      FirstLine(first, lines);
      SplitFirst(first, '\n', lines[0] + TableText(lines[1..]));
      SplitLines(lines[0], lines[1..]);
      assert [lines[0]] + lines[1..] == lines;
    }
  }

  lemma DecimalPlain(n: nat)
    ensures '\n' !in Decimal(n) && ';' !in Decimal(n) && ',' !in Decimal(n)
  {
  }

  lemma TableLines(rows: seq<Row>)
    requires rows != [] && WellFormed(rows)
    ensures Split(TableText(Lines(rows)), '\n') == [""] + Lines(rows)
  {
    forall i | 0 <= i < |rows| ensures '\n' !in Line(rows[i]) && Line(rows[i]) != "" {
      DecimalPlain(rows[i].id);
      assert Flat(rows[i].text);
    }
    assert "" + TableText(Lines(rows)) == TableText(Lines(rows));
    SplitLines("", Lines(rows));
  }

  lemma LineRead(row: Row)
    requires Flat(row.text)
    ensures LineText(Line(row)) == row.text && LineId(Line(row)) == Some(row.id) && Line(row) != ""
  {
    var line := Line(row);
    assert line[0] == ';';
    assert line == row.text + [','] + Decimal(row.id);
    TokenAt(row.text, ',', Decimal(row.id));
    DecimalPlain(row.id);
    TokenLast(Decimal(row.id), ',');
    StoiOfDecimal(row.id);
  }

  /** The compiler numbers the rows from one, in file order. */
  ghost predicate Indexed(rows: seq<Row>, n: nat, ids: Ids)
    requires n <= |rows|
  {
    && ids.count == n
    && (forall i :: 0 <= i < n ==> rows[i].id in ids.counterOf && ids.counterOf[rows[i].id] == i + 1)
    && (forall i :: 0 <= i < n ==> rows[i].id in ids.textOf && ids.textOf[rows[i].id] == rows[i].text)
    && (forall id :: id in ids.textOf ==> exists i :: 0 <= i < n && rows[i].id == id)
  }

  ghost predicate LastOf(rows: seq<Row>, n: nat, i: nat)
    requires i < n <= |rows|
  {
    forall j :: i < j < n ==> rows[j].text != rows[i].text
  }

  /** A text leads to the id of its last row. */
  ghost predicate LeadsTo(row: Row, ids: Ids) {
    row.text in ids.idOf && ids.idOf[row.text] == row.id
  }

  ghost predicate LeadsBack(rows: seq<Row>, n: nat, ids: Ids)
    requires n <= |rows|
  {
    forall i :: 0 <= i < n && LastOf(rows, n, i) ==> LeadsTo(rows[i], ids)
  }

  lemma LeadsBackNext(rows: seq<Row>, n: nat, ids: Ids)
    requires n < |rows| && LeadsBack(rows, n, ids)
    ensures LeadsBack(rows, n + 1, WithRow(ids, rows[n]))
  {
    var next := WithRow(ids, rows[n]);
    forall i | 0 <= i < n + 1 && LastOf(rows, n + 1, i) ensures LeadsTo(rows[i], next) {
      if i < n {
        assert rows[n].text != rows[i].text && LastOf(rows, n, i);
        assert LeadsTo(rows[i], ids);
      }
    }
  }

  function WithRow(ids: Ids, row: Row): Ids {
    Ids(ids.textOf[row.id := row.text], ids.idOf[row.text := row.id],
        ids.counterOf[row.id := ids.count + 1], ids.count + 1)
  }

  lemma NextOfRow(ids: Ids, row: Row)
    requires Flat(row.text)
    ensures Next(ids, Line(row)) == Some(WithRow(ids, row))
  {
    LineRead(row);
  }

  lemma IndexedNext(rows: seq<Row>, n: nat, ids: Ids)
    requires WellFormed(rows) && n < |rows| && Indexed(rows, n, ids)
    ensures Indexed(rows, n + 1, WithRow(ids, rows[n]))
  {
    assert forall i :: 0 <= i < n ==> rows[i].id != rows[n].id;
  }

  ghost predicate LoadedTo(rows: seq<Row>, n: nat, lines: seq<string>)
    requires n <= |rows|
  {
    Loaded(lines).Some? && Indexed(rows, n, Loaded(lines).value) && LeadsBack(rows, n, Loaded(lines).value)
  }

  lemma LoadedRow(rows: seq<Row>, n: nat, lines: seq<string>)
    requires WellFormed(rows) && n < |rows| && LoadedTo(rows, n, lines)
    ensures LoadedTo(rows, n + 1, lines + [Line(rows[n])])
  {
    LoadedNext(lines, Line(rows[n]));
    NextOfRow(Loaded(lines).value, rows[n]);
    IndexedNext(rows, n, Loaded(lines).value);
    LeadsBackNext(rows, n, Loaded(lines).value);
  }

  lemma NothingLoaded(rows: seq<Row>)
    ensures LoadedTo(rows, 0, [""])
  {
    LoadedNext([], "");
    assert [] + [""] == [""];
  }

  lemma LinesNext(rows: seq<Row>, n: nat)
    requires n < |rows|
    ensures [""] + Lines(rows[..n + 1]) == [""] + Lines(rows[..n]) + [Line(rows[n])]
  {
    assert Lines(rows[..n + 1]) == Lines(rows[..n]) + [Line(rows[n])];
  }

  lemma {:induction false} RowsLoaded(rows: seq<Row>, n: nat)
    requires WellFormed(rows) && n <= |rows|
    ensures LoadedTo(rows, n, [""] + Lines(rows[..n]))
  {
    if n == 0 {
      NothingLoaded(rows);
      assert [""] + Lines(rows[..0]) == [""];
    } else {
      var m := n - 1;
      RowsLoaded(rows, m);
      LoadedRow(rows, m, [""] + Lines(rows[..m]));
      LinesNext(rows, m);
    }
  }

  /** Reading the table in the compiler inverts printing it. */
  lemma TableLoaded(rows: seq<Row>)
    requires WellFormed(rows) && rows != []
    ensures var result := Loaded(Split(TableText(Lines(rows)), '\n'));
            result.Some? && Indexed(rows, |rows|, result.value) && LeadsBack(rows, |rows|, result.value)
  {
    TableLines(rows);
    RowsLoaded(rows, |rows|);
    assert rows[..|rows|] == rows;
  }

  function Joined(s: seq<string>): string {
    if s == [] then "" else s[0] + ";" + Joined(s[1..])
  }

  lemma {:induction false} JoinedAppend(s: seq<string>, x: string)
    ensures Joined(s + [x]) == Joined(s) + x + ";"
  {
    if s == [] {
      assert s + [x] == [x];
    } else {
      assert (s + [x])[1..] == s[1..] + [x];
      JoinedAppend(s[1..], x);
    }
  }

  lemma {:induction false} FlattenIsJoined(s: seq<string>)
    ensures Flatten(s) == ";" + Joined(s)
  {
    if s != [] {
      var init, last := s[..|s| - 1], s[|s| - 1];
      FlattenIsJoined(init);
      JoinedAppend(init, last);
      Regroup(Joined(init), last);
      assert init + [last] == s;
    }
  }

  lemma Regroup(a: string, b: string)
    ensures (";" + a) + b + ";" == ";" + (a + b + ";")
  {
  }

  lemma JoinedFirst(s: seq<string>, tail: string)
    requires s != []
    ensures Joined(s) + tail == s[0] + [';'] + (Joined(s[1..]) + tail)
    ensures [s[0]] + (s[1..] + [tail]) == s + [tail]
  {
  }

  lemma {:induction false} SplitJoined(s: seq<string>, tail: string)
    requires AllProper(s) && tail != "" && ';' !in tail
    ensures Split(Joined(s) + tail, ';') == s + [tail]
  {
    if s == [] {
      assert Joined(s) + tail == tail;
      TokenLast(tail, ';');
    } else {
      JoinedFirst(s, tail);
      SplitFirst(s[0], ';', Joined(s[1..]) + tail);
      SplitJoined(s[1..], tail);
    }
  }

  /** A line's set is the set it was flattened from: the empty part before the first
      separator and the id after the last one are dropped. */
  lemma LineSet(s: seq<string>, id: nat)
    requires AllProper(s)
    ensures PredSet(Line(Row(Flatten(s), id))) == Elements(s)
  {
    var tail := "," + Decimal(id);
    var line := Line(Row(Flatten(s), id));
    FlattenIsJoined(s);
    DecimalPlain(id);
    assert line == "" + [';'] + (Joined(s) + tail);
    SplitFirst("", ';', Joined(s) + tail);
    SplitJoined(s, tail);
    assert Split(line, ';') == [""] + (s + [tail]);
    TailIsNoName(s, tail);
  }

  lemma TailIsNoName(s: seq<string>, tail: string)
    requires AllProper(s) && ',' in tail
    ensures Nonempty([""] + (s + [tail])) - {tail} == Elements(s)
  {
    var parts := [""] + (s + [tail]);
    forall x | x in s ensures x in parts && x != "" && x != tail {
      var i :| 0 <= i < |s| && s[i] == x;
      assert parts[i + 1] == x && Proper(s[i]);
    }
  }

  lemma FlattenInjective(s: seq<string>, t: seq<string>)
    requires AllProper(s) && AllProper(t) && Flatten(s) == Flatten(t)
    ensures Elements(s) == Elements(t)
  {
    LineSet(s, 0);
    LineSet(t, 0);
  }

  /** End to end: whatever the order of the chains in the file, the index that the
      compiler embeds for chain id k selects exactly the set recorded under k. */
  lemma IdSelectsItsSet(chains: seq<Row>, others: seq<Row>, k: nat, s: seq<string>)
    requires WellFormed(chains + others) && k < |chains|
    requires AllProper(s) && chains[k].text == Flatten(s)
    ensures var lines := Split(TableText(Lines(chains + others)), '\n');
            && Loaded(lines).Some?
            && chains[k].id in Loaded(lines).value.counterOf
            && var index := Loaded(lines).value.counterOf[chains[k].id];
            0 < index < |PredSets(lines)| && PredSets(lines)[index] == Elements(s)
  {
    var rows := chains + others;
    TableLoaded(rows);
    TableLines(rows);
    assert rows[k] == chains[k];
    LineSet(s, chains[k].id);
    assert chains[k] == Row(Flatten(s), chains[k].id);
  }
}
