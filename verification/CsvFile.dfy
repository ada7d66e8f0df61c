/** Whole files: what the export route writes and the import route reads back, and what it stores. */
module CsvFile {
  import opened JsText
  import opened Csv

  const NEWLINE: char := '\n'

  // ---------------------------------------------------------------- export and import of a table

  function Rows(table: seq<seq<string>>): (r: seq<string>)
    ensures |r| == |table| && forall i :: 0 <= i < |table| ==> r[i] == Row(table[i])
  {
    if table == [] then [] else [Row(table[0])] + Rows(table[1..])
  }

  /** The header line is joined without quoting. */
  function ExportFile(header: seq<string>, table: seq<seq<string>>): string {
    Join([Join(header, [COMMA])] + Rows(table), [NEWLINE])
  }

  function NonBlank(lines: seq<string>): seq<string> {
    if lines == [] then []
    else (if Trim(lines[0]) == "" then [] else [lines[0]]) + NonBlank(lines[1..])
  }

  function ParseLines(lines: seq<string>): (r: seq<seq<string>>)
    ensures |r| == |lines| && forall i :: 0 <= i < |lines| ==> r[i] == ParseLine(lines[i])
  {
    if lines == [] then [] else [ParseLine(lines[0])] + ParseLines(lines[1..])
  }

  /** The values of every data row, or None when there is no header or no data row. */
  function ImportFile(text: string): Option<seq<seq<string>>> {
    var lines := NonBlank(Split(text, NEWLINE));
    if |lines| < 2 then None else Some(ParseLines(lines[1..]))
  }

  // ---------------------------------------------------------------- which rows survive

  lemma {:induction false} TrimStartEmpty(s: string)
    ensures TrimStart(s) == "" <==> forall c :: c in s ==> IsSpace(c)
  {
    hide IsSpace;
    if s != "" {
      assert s[0] in s;
      if IsSpace(s[0]) {
        TrimStartEmpty(s[1..]);
        assert s == [s[0]] + s[1..];
      }
    }
  }

  lemma {:induction false} TrimEndEmpty(s: string)
    ensures TrimEnd(s) == "" <==> forall c :: c in s ==> IsSpace(c)
  {
    hide IsSpace;
    if s != "" {
      var n := |s| - 1;
      assert s[n] in s;
      if IsSpace(s[n]) {
        TrimEndEmpty(s[..n]);
        assert s == s[..n] + [s[n]];
      }
    }
  }

  lemma {:induction false} TrimStartSuffix(s: string)
    ensures |TrimStart(s)| <= |s| && TrimStart(s) == s[|s| - |TrimStart(s)|..]
    ensures TrimStart(s) != "" ==> !IsSpace(TrimStart(s)[0])
  {
    hide IsSpace;
    if s != "" && IsSpace(s[0]) { TrimStartSuffix(s[1..]); }
  }

  lemma TrimEmpty(s: string)
    ensures Trim(s) == "" <==> forall c :: c in s ==> IsSpace(c)
  {
    hide IsSpace, TrimStart, TrimEnd;
    var t := TrimStart(s);
    TrimStartEmpty(s);
    TrimEndEmpty(t);
    TrimStartSuffix(s);
    if t != "" { assert t[0] in t; }
  }

  /** A row is dropped as a blank line exactly when it has one column and that field is blank. */
  lemma BlankRow(fields: seq<string>)
    requires fields != []
    ensures Trim(Row(fields)) == "" <==> |fields| == 1 && Trim(fields[0]) == ""
  {
    hide Trim, IsSpace;
    TrimEmpty(Row(fields));
    TrimEmpty(fields[0]);
    PunctuationIsNoSpace();
    var cells := Cells(fields);
    if |fields| == 1 {
      assert cells == [Cell(fields[0])] && Row(fields) == Cell(fields[0]);
      if COMMA in fields[0] || QUOTE in fields[0] {
        assert Cell(fields[0])[0] == QUOTE && QUOTE in Cell(fields[0]);
        assert !(forall c :: c in fields[0] ==> IsSpace(c));
      }
    } else {
      assert Row(fields) == cells[0] + [COMMA] + Join(cells[1..], [COMMA]);
      assert Row(fields)[|cells[0]|] == COMMA && COMMA in Row(fields);
    }
  }

  lemma PunctuationIsNoSpace()
    ensures !IsSpace(COMMA) && !IsSpace(QUOTE)
  {
  }

  // ---------------------------------------------------------------- splitting lines

  lemma {:induction false} SplitOne(line: string, rest: string)
    requires NEWLINE !in line
    ensures Split(line, NEWLINE) == [line]
    ensures Split(line + ([NEWLINE] + rest), NEWLINE) == [line] + Split(rest, NEWLINE)
    decreases |line|
  {
    var tail := [NEWLINE] + rest;
    if line == "" {
      assert line + tail == tail && tail[1..] == rest;
    } else {
      assert line[0] in line;
      SplitOne(line[1..], rest);
      assert (line + tail)[1..] == line[1..] + tail && (line + tail)[0] == line[0];
      assert [line[0]] + line[1..] == line;
    }
  }

  lemma {:induction false} SplitJoin(lines: seq<string>)
    requires lines != [] && forall l :: l in lines ==> NEWLINE !in l
    ensures Split(Join(lines, [NEWLINE]), NEWLINE) == lines
  {
    hide Split;
    SplitOne(lines[0], Join(lines[1..], [NEWLINE]));
    if |lines| > 1 {
      SplitJoin(lines[1..]);
      assert Join(lines, [NEWLINE]) == lines[0] + ([NEWLINE] + Join(lines[1..], [NEWLINE]));
      assert lines == [lines[0]] + lines[1..];
    }
  }

  lemma {:induction false} NothingDropped(lines: seq<string>)
    requires forall l :: l in lines ==> Trim(l) != ""
    ensures NonBlank(lines) == lines
  {
    hide Trim;
    if lines != [] {
      NothingDropped(lines[1..]);
    }
  }

  lemma {:induction false} DoubledKeeps(v: string, c: char)
    requires c != QUOTE
    ensures c in Doubled(v) <==> c in v
  {
    if v != "" {
      DoubledKeeps(v[1..], c);
      assert v == [v[0]] + v[1..];
    }
  }

  lemma {:induction false} RowHasNoNewline(fields: seq<string>)
    requires forall f :: f in fields ==> NEWLINE !in f
    ensures NEWLINE !in Row(fields)
  {
    hide Doubled;
    if fields != [] {
      DoubledKeeps(fields[0], NEWLINE);
      RowHasNoNewline(fields[1..]);
      var cells := Cells(fields);
      assert cells[1..] == Cells(fields[1..]);
    }
  }

  function TrimRows(table: seq<seq<string>>): (r: seq<seq<string>>)
    ensures |r| == |table| && forall i :: 0 <= i < |table| ==> r[i] == TrimAll(table[i])
  {
    if table == [] then [] else [TrimAll(table[0])] + TrimRows(table[1..])
  }

  lemma {:induction false} BlankIsDropped(lines: seq<string>)
    ensures |NonBlank(lines)| <= |lines|
    ensures (exists l :: l in lines && Trim(l) == "") ==> |NonBlank(lines)| < |lines|
  {
    hide Trim;
    if lines != [] {
      BlankIsDropped(lines[1..]);
      assert lines == [lines[0]] + lines[1..];
    }
  }

  ghost predicate NoBlankRow(table: seq<seq<string>>)
    requires forall r :: r in table ==> r != []
  {
    forall r :: r in table ==> |r| > 1 || Trim(r[0]) != ""
  }

  /**
   * File round trip: importing an exported table without line breaks yields every row, in order,
   * trimmed, exactly when there is a row and no row is a single blank field.
   */
  lemma FileRoundTrip(header: seq<string>, table: seq<seq<string>>)
    requires var h := Join(header, [COMMA]); NEWLINE !in h && Trim(h) != ""
    requires forall r :: r in table ==> r != [] && (forall f :: f in r ==> NEWLINE !in f)
    ensures ImportFile(ExportFile(header, table)) == Some(TrimRows(table)) <==> table != [] && NoBlankRow(table)
  {
    hide Trim, Row, ParseLine, Join, Split, NonBlank;
    var lines := [Join(header, [COMMA])] + Rows(table);
    forall l | l in lines ensures NEWLINE !in l {
      if l != lines[0] {
        var i :| 0 <= i < |table| && l == Rows(table)[i];
        assert table[i] in table;
        RowHasNoNewline(table[i]);
      }
    }
    SplitJoin(lines);
    RowsBlank(table);
    if NoBlankRow(table) {
      NothingDropped(lines);
      assert lines[1..] == Rows(table);
      RowsParsed(table);
    } else {
      var l :| l in Rows(table) && Trim(l) == "";
      assert l in lines;
      BlankIsDropped(lines);
    }
  }

  lemma RowsBlank(table: seq<seq<string>>)
    requires forall r :: r in table ==> r != []
    ensures NoBlankRow(table) <==> forall l :: l in Rows(table) ==> Trim(l) != ""
  {
    hide Trim, Row;
    forall r | r in table ensures Trim(Row(r)) == "" <==> |r| == 1 && Trim(r[0]) == "" { BlankRow(r); }
    forall r | r in table ensures Row(r) in Rows(table) {
      var i :| 0 <= i < |table| && table[i] == r;
      assert Rows(table)[i] == Row(r);
    }
  }

  lemma RowsParsed(table: seq<seq<string>>)
    requires forall r :: r in table ==> r != []
    ensures ParseLines(Rows(table)) == TrimRows(table)
  {
    hide ParseLine, Row;
    forall i | 0 <= i < |table| ensures ParseLine(Rows(table)[i]) == TrimAll(table[i]) {
      assert table[i] in table;
      RowRoundTrip(table[i]);
    }
  }

  // ---------------------------------------------------------------- storing the rows

  /** A data row after column lookup: the digits of the phone number, and the name to store. */
  datatype Contact = Contact(phone: string, name: string)

  /** The contacts of one organization by phone number. */
  type Store = map<string, string>

  function Apply(store: Store, c: Contact, updateOnDuplicate: bool): Store {
    if c.phone == "" || (c.phone in store && !updateOnDuplicate) then store else store[c.phone := c.name]
  }

  function ApplyAll(store: Store, rows: seq<Contact>, updateOnDuplicate: bool): Store {
    if rows == [] then store
    else Apply(ApplyAll(store, rows[..|rows| - 1], updateOnDuplicate), rows[|rows| - 1], updateOnDuplicate)
  }

  datatype Outcome = Created | Updated | Skipped | Errored

  /** What becomes of one row; `fails` says that a database call for it throws. */
  function OutcomeOf(store: Store, c: Contact, updateOnDuplicate: bool, fails: bool): Outcome {
    if c.phone == "" then Skipped
    else if fails then Errored
    else if c.phone !in store then Created
    else if updateOnDuplicate then Updated else Skipped
  }

  function Tick(b: bool): nat { if b then 1 else 0 }

  /** The rows that reach the database. */
  function Kept(rows: seq<Contact>, failing: seq<bool>): seq<Contact>
    requires |failing| == |rows|
  {
    if rows == [] then []
    else
      var n := |rows| - 1;
      Kept(rows[..n], failing[..n]) + if failing[n] then [] else [rows[n]]
  }

  /** How many rows end in a given way, each against the store the rows before it have left. */
  function Count(store: Store, rows: seq<Contact>, failing: seq<bool>, updateOnDuplicate: bool, o: Outcome): nat
    requires |failing| == |rows|
  {
    if rows == [] then 0
    else
      var n := |rows| - 1;
      var now := ApplyAll(store, Kept(rows[..n], failing[..n]), updateOnDuplicate);
      Count(store, rows[..n], failing[..n], updateOnDuplicate, o)
        + Tick(o == OutcomeOf(now, rows[n], updateOnDuplicate, failing[n]))
  }

  /** How many rows have a phone number, and their database calls went through, or threw. */
  function Reached(rows: seq<Contact>, failing: seq<bool>): nat
    requires |failing| == |rows|
  {
    if rows == [] then 0
    else
      var n := |rows| - 1;
      Reached(rows[..n], failing[..n]) + Tick(rows[n].phone != "" && !failing[n])
  }

  function Lost(rows: seq<Contact>, failing: seq<bool>): nat
    requires |failing| == |rows|
  {
    if rows == [] then 0
    else
      var n := |rows| - 1;
      Lost(rows[..n], failing[..n]) + Tick(rows[n].phone != "" && failing[n])
  }

  lemma OneRowReached(rows: seq<Contact>, failing: seq<bool>, i: nat)
    requires |failing| == |rows| && i < |rows|
    ensures Reached(rows[..i + 1], failing[..i + 1])
         == Reached(rows[..i], failing[..i]) + Tick(rows[i].phone != "" && !failing[i])
    ensures Lost(rows[..i + 1], failing[..i + 1])
         == Lost(rows[..i], failing[..i]) + Tick(rows[i].phone != "" && failing[i])
  {
    assert rows[..i + 1][..i] == rows[..i] && failing[..i + 1][..i] == failing[..i];
  }

  class Import {
    var store: Store
    var created: nat
    var updated: nat
    var skipped: nat
    var errors: nat

    function Counter(o: Outcome): nat
      reads this
    {
      match o case Created => created case Updated => updated case Skipped => skipped case Errored => errors
    }

    constructor (store: Store)
      ensures this.store == store && forall o :: Counter(o) == 0
    {
      this.store, created, updated, skipped, errors := store, 0, 0, 0, 0;
    }

    /** One turn of the row loop: the counter of the row's outcome goes up and no other. */
    method ImportRow(c: Contact, updateOnDuplicate: bool, fails: bool)
      modifies this
      ensures store == if fails then old(store) else Apply(old(store), c, updateOnDuplicate)
      ensures forall o :: Counter(o) == old(Counter(o)) + Tick(o == OutcomeOf(old(store), c, updateOnDuplicate, fails))
      ensures errors == old(errors) + Tick(c.phone != "" && fails)
      ensures created == old(created) + Tick(c.phone != "" && !fails && c.phone !in old(store))
      ensures updated == old(updated) + Tick(c.phone != "" && !fails && c.phone in old(store) && updateOnDuplicate)
      ensures skipped == old(skipped)
        + Tick(c.phone == "" || (!fails && c.phone in old(store) && !updateOnDuplicate))
      ensures created + updated + skipped + errors == old(created + updated + skipped + errors) + 1
      ensures |store| - created == |old(store)| - old(created)
    {
      if c.phone == "" {
        skipped := skipped + 1;
        return;
      }
      if fails {
        errors := errors + 1;
        return;
      }
      if c.phone in store {
        if updateOnDuplicate {
          store := store[c.phone := c.name];
          updated := updated + 1;
        } else {
          skipped := skipped + 1;
        }
      } else {
        store := store[c.phone := c.name];
        created := created + 1;
      }
    }

    method ImportRows(rows: seq<Contact>, updateOnDuplicate: bool, failing: seq<bool>)
      requires |failing| == |rows|
      modifies this
      ensures store == ApplyAll(old(store), Kept(rows, failing), updateOnDuplicate)
      ensures forall o :: Counter(o) == old(Counter(o)) + Count(old(store), rows, failing, updateOnDuplicate, o)
      ensures errors == old(errors) + Lost(rows, failing)
      ensures created == old(created) + |store| - |old(store)|
      ensures updated == old(updated)
        + if updateOnDuplicate then Reached(rows, failing) - (|store| - |old(store)|) else 0
      ensures created + updated + skipped + errors == old(created + updated + skipped + errors) + |rows|
      ensures |store| - created == |old(store)| - old(created)
    {
      for i := 0 to |rows|
        invariant store == ApplyAll(old(store), Kept(rows[..i], failing[..i]), updateOnDuplicate)
        invariant forall o ::
          Counter(o) == old(Counter(o)) + Count(old(store), rows[..i], failing[..i], updateOnDuplicate, o)
        invariant errors == old(errors) + Lost(rows[..i], failing[..i])
        invariant created == old(created) + |store| - |old(store)|
        invariant updated == old(updated)
          + if updateOnDuplicate then Reached(rows[..i], failing[..i]) - (|store| - |old(store)|) else 0
        invariant created + updated + skipped + errors == old(created + updated + skipped + errors) + i
        invariant |store| - created == |old(store)| - old(created)
      {
        hide OutcomeOf, Apply;
        OneRowMore(old(store), rows, failing, updateOnDuplicate, i);
        OneRowReached(rows, failing, i);
        ImportRow(rows[i], updateOnDuplicate, failing[i]);
      }
      assert rows[..|rows|] == rows && failing[..|rows|] == failing;
    }
  }

  lemma OneRowMore(store: Store, rows: seq<Contact>, failing: seq<bool>, updateOnDuplicate: bool, i: nat)
    requires |failing| == |rows| && i < |rows|
    ensures var now := ApplyAll(store, Kept(rows[..i], failing[..i]), updateOnDuplicate);
      && ApplyAll(store, Kept(rows[..i + 1], failing[..i + 1]), updateOnDuplicate)
         == (if failing[i] then now else Apply(now, rows[i], updateOnDuplicate))
      && forall o ::
           Count(store, rows[..i + 1], failing[..i + 1], updateOnDuplicate, o)
             == Count(store, rows[..i], failing[..i], updateOnDuplicate, o)
                + Tick(o == OutcomeOf(now, rows[i], updateOnDuplicate, failing[i]))
  {
    assert rows[..i + 1][..i] == rows[..i] && failing[..i + 1][..i] == failing[..i];
    var kept := Kept(rows[..i], failing[..i]);
    assert (kept + [rows[i]])[..|kept|] == kept && kept + [] == kept;
  }

  /** Who is stored after an import, and which values stay as they were. */
  lemma {:induction false} ImportDecides(store: Store, rows: seq<Contact>, updateOnDuplicate: bool, phone: string)
    ensures var t := ApplyAll(store, rows, updateOnDuplicate);
      && (phone in t <==> phone in store || (phone != "" && exists c :: c in rows && c.phone == phone))
      && (phone in store && !updateOnDuplicate ==> t[phone] == store[phone])
      && (phone in store && (forall c :: c in rows ==> c.phone != phone) ==> t[phone] == store[phone])
  {
    if rows != [] {
      var n := |rows| - 1;
      ImportDecides(store, rows[..n], updateOnDuplicate, phone);
      assert rows == rows[..n] + [rows[n]];
    }
  }

  /** With updates on, a phone number that occurs ends with the name in its last row, whatever was stored. */
  lemma {:induction false} LastRowWins(store: Store, rows: seq<Contact>, phone: string, i: nat)
    requires phone != "" && i < |rows| && rows[i].phone == phone
    requires forall j :: i < j < |rows| ==> rows[j].phone != phone
    ensures phone in ApplyAll(store, rows, true) && ApplyAll(store, rows, true)[phone] == rows[i].name
  {
    var n := |rows| - 1;
    if i < n { LastRowWins(store, rows[..n], phone, i); }
  }

  /** With updates off, a phone number that is new ends with the name in its first row. */
  lemma {:induction false} FirstRowWins(store: Store, rows: seq<Contact>, phone: string, i: nat)
    requires phone != "" && phone !in store && i < |rows| && rows[i].phone == phone
    requires forall j :: 0 <= j < i ==> rows[j].phone != phone
    ensures phone in ApplyAll(store, rows, false) && ApplyAll(store, rows, false)[phone] == rows[i].name
  {
    var n := |rows| - 1;
    if i < n {
      FirstRowWins(store, rows[..n], phone, i);
    } else {
      ImportDecides(store, rows[..n], false, phone);
    }
  }

  /** So the store an import with updates starts from does not matter for the numbers that occur. */
  lemma RowsOverwrite(s: Store, t: Store, rows: seq<Contact>, phone: string)
    requires phone != "" && exists c :: c in rows && c.phone == phone
    ensures phone in ApplyAll(s, rows, true) && phone in ApplyAll(t, rows, true)
    ensures ApplyAll(s, rows, true)[phone] == ApplyAll(t, rows, true)[phone]
  {
    var i := LastRow(rows, phone);
    LastRowWins(s, rows, phone, i);
    LastRowWins(t, rows, phone, i);
  }

  lemma {:induction false} LastRow(rows: seq<Contact>, phone: string) returns (i: nat)
    requires exists c :: c in rows && c.phone == phone
    ensures i < |rows| && rows[i].phone == phone && forall j :: i < j < |rows| ==> rows[j].phone != phone
  {
    var n := |rows| - 1;
    assert rows == rows[..n] + [rows[n]];
    i := n;
    if rows[n].phone != phone { i := LastRow(rows[..n], phone); }
  }

  /** Importing the same file again changes nothing, in either mode. */
  lemma ImportTwice(store: Store, rows: seq<Contact>, updateOnDuplicate: bool)
    ensures var once := ApplyAll(store, rows, updateOnDuplicate);
      ApplyAll(once, rows, updateOnDuplicate) == once
  {
    hide ApplyAll;
    var once := ApplyAll(store, rows, updateOnDuplicate);
    var twice := ApplyAll(once, rows, updateOnDuplicate);
    forall p ensures p in twice <==> p in once {
      ImportDecides(store, rows, updateOnDuplicate, p);
      ImportDecides(once, rows, updateOnDuplicate, p);
    }
    forall p | p in once ensures twice[p] == once[p] {
      ImportDecides(store, rows, updateOnDuplicate, p);
      ImportDecides(once, rows, updateOnDuplicate, p);
      if updateOnDuplicate && exists c :: c in rows && c.phone == p {
        if p != "" {
          RowsOverwrite(store, once, rows, p);
        } else {
          BlankPhoneStays(store, rows, p);
          BlankPhoneStays(once, rows, p);
        }
      }
    }
  }

  lemma {:induction false} BlankPhoneStays(store: Store, rows: seq<Contact>, phone: string)
    requires phone == "" && phone in store
    ensures phone in ApplyAll(store, rows, true) && ApplyAll(store, rows, true)[phone] == store[phone]
  {
    if rows != [] { BlankPhoneStays(store, rows[..|rows| - 1], phone); }
  }
}
