/**
 * `parseCsv` of src/lib/actions.ts: the text is split into lines on `\r?\n`,
 * every line is trimmed and the empty ones are dropped, every remaining
 * line is split on `;`, and every field loses all its `"` characters and is
 * trimmed.
 */
module Csv {
  import opened Text

  /** A piece of the text before a line feed loses one carriage return that ends it. */
  function DropCR(p: string): string {
    if |p| > 0 && p[|p| - 1] == '\r' then p[..|p| - 1] else p
  }

  /** `text.split(/\r?\n/)`: one line per line feed, plus the last piece. */
  function Lines(text: string): (r: seq<string>)
    ensures |r| == Count(text, '\n') + 1
    ensures forall k :: 0 <= k < |r| ==> '\n' !in r[k]
  {
    var pieces := Split(text, '\n');
    seq(|pieces|, i requires 0 <= i < |pieces| => if i < |pieces| - 1 then DropCR(pieces[i]) else pieces[i])
  }

  /** `.filter(line => line)`: the non-empty strings of `ls`, in their order. */
  function KeepNonEmpty(ls: seq<string>): (r: seq<string>)
    ensures |r| <= |ls|
    ensures forall k :: 0 <= k < |r| ==> r[k] != ""
    ensures forall x :: x in r <==> x in ls && x != ""
    ensures (forall k :: 0 <= k < |ls| ==> Trimmed(ls[k])) ==> forall k :: 0 <= k < |r| ==> Trimmed(r[k])
  {
    if ls == [] then []
    else (if ls[0] == "" then [] else [ls[0]]) + KeepNonEmpty(ls[1..])
  }

  /** A text without a line feed is one line, carriage returns and all. */
  lemma LinesOfLine(a: string)
    requires '\n' !in a
    ensures Lines(a) == [a]
  {
    SplitWithoutSeparator(a, '\n');
  }

  /** The text up to the first line feed, less one carriage return before it, is the first line. */
  lemma LinesCons(a: string, b: string)
    requires '\n' !in a
    ensures Lines(a + "\n" + b) == [DropCR(a)] + Lines(b)
  {
    SplitAtSeparator(a, b, '\n');
    assert a + "\n" + b == a + ['\n'] + b;
  }

  /** Filtering distributes over concatenation: kept lines stay in order, with their repeats. */
  lemma {:induction false} KeepNonEmptyAppend(a: seq<string>, b: seq<string>)
    ensures KeepNonEmpty(a + b) == KeepNonEmpty(a) + KeepNonEmpty(b)
  {
    if a == [] {
      assert a + b == b;
    } else {
      assert (a + b)[1..] == a[1..] + b;
      KeepNonEmptyAppend(a[1..], b);
    }
  }

  /** One line is kept exactly when it is not empty. */
  lemma KeepNonEmptyOne(l: string)
    ensures KeepNonEmpty([l]) == if l == "" then [] else [l]
  {
    assert [l][1..] == [];
  }

  /** `.map(line => line.trim())`. */
  function TrimAll(ls: seq<string>): (r: seq<string>)
    ensures |r| == |ls| && forall k :: 0 <= k < |ls| ==> r[k] == Trim(ls[k])
  {
    seq(|ls|, i requires 0 <= i < |ls| => Trim(ls[i]))
  }

  /** The lines that become rows: each line trimmed, the empty ones dropped. */
  function RecordLines(text: string): (r: seq<string>)
    ensures forall k :: 0 <= k < |r| ==> r[k] != "" && Trimmed(r[k])
  {
    KeepNonEmpty(TrimAll(Lines(text)))
  }

  /** A text of one line gives its trim as the only record line, or nothing when it is blank. */
  lemma RecordLinesOfLine(a: string)
    requires '\n' !in a
    ensures RecordLines(a) == if AllWhite(a) then [] else [Trim(a)]
  {
    LinesOfLine(a);
    assert TrimAll([a]) == [Trim(a)];
    KeepNonEmptyOne(Trim(a));
  }

  /**
   * The first line of the text, trimmed, is the first record line unless it
   * is blank; the record lines of the rest follow in order.
   */
  lemma RecordLinesCons(a: string, b: string)
    requires '\n' !in a
    ensures RecordLines(a + "\n" + b) == (if AllWhite(DropCR(a)) then [] else [Trim(DropCR(a))]) + RecordLines(b)
  {
    var first := Trim(DropCR(a));
    var rest := TrimAll(Lines(b));
    LinesCons(a, b);
    TrimAllCons(DropCR(a), Lines(b));
    assert TrimAll(Lines(a + "\n" + b)) == [first] + rest;
    KeepNonEmptyAppend([first], rest);
    KeepNonEmptyOne(first);
  }

  lemma {:induction false} TrimAllCons(l: string, ls: seq<string>)
    ensures TrimAll([l] + ls) == [Trim(l)] + TrimAll(ls)
  {
    var lhs := TrimAll([l] + ls);
    var rhs := [Trim(l)] + TrimAll(ls);
    forall k | 0 <= k < |lhs| ensures lhs[k] == rhs[k] {
      if k > 0 {
        assert ([l] + ls)[k] == ls[k - 1];
      }
    }
    assert lhs == rhs;
  }

  /** A line yields a row exactly when it is not blank, and the row is read from the trimmed line. */
  lemma RecordLinesOfLines(text: string, l: string)
    ensures l in RecordLines(text) <==> exists k :: 0 <= k < |Lines(text)| && !AllWhite(Lines(text)[k]) && l == Trim(Lines(text)[k])
  {
    var ls := Lines(text);
    var trimmed := TrimAll(ls);
    if l in RecordLines(text) {
      var j :| 0 <= j < |trimmed| && trimmed[j] == l;
      assert !AllWhite(ls[j]);
    }
    if exists k :: 0 <= k < |ls| && !AllWhite(ls[k]) && l == Trim(ls[k]) {
      var k :| 0 <= k < |ls| && !AllWhite(ls[k]) && l == Trim(ls[k]);
      assert trimmed[k] == l;
    }
  }

  /** One field: every `"` removed, then trimmed. */
  function CleanField(f: string): (r: string)
    ensures '"' !in r && Trimmed(r)
    ensures var u := RemoveAll(f, '"'); var i := LeadingWhite(u);
      i + |r| <= |u| && r == u[i..i + |r|] && AllWhite(u[..i]) && AllWhite(u[i + |r|..])
  {
    var u := RemoveAll(f, '"');
    var r := Trim(u);
    assert AllWhite(u[..LeadingWhite(u)]) && AllWhite(u[LeadingWhite(u) + |r|..]);
    r
  }

  /** The fields of one line: split on `;`, each cleaned. */
  function Fields(line: string): (r: seq<string>)
    ensures |r| == Count(line, ';') + 1
    ensures forall k :: 0 <= k < |r| ==> r[k] == CleanField(Split(line, ';')[k])
  {
    var pieces := Split(line, ';');
    seq(|pieces|, i requires 0 <= i < |pieces| => CleanField(pieces[i]))
  }

  /**
   * `parseCsv(text)`: one row per non-blank line, in order; a row has one
   * field more than its line has semicolons; no field holds a `"` or starts
   * or ends with white space.
   */
  function ParseCsv(text: string): (rows: seq<seq<string>>)
    ensures |rows| == |RecordLines(text)|
    ensures forall i :: 0 <= i < |rows| ==> |rows[i]| == Count(RecordLines(text)[i], ';') + 1
    ensures forall i, j :: 0 <= i < |rows| && 0 <= j < |rows[i]| ==> '"' !in rows[i][j] && Trimmed(rows[i][j])
    ensures forall i :: 0 <= i < |rows| ==> rows[i] == Fields(RecordLines(text)[i])
  {
    var lines := RecordLines(text);
    seq(|lines|, i requires 0 <= i < |lines| => Fields(lines[i]))
  }

  lemma {:induction false} SplitWithoutSeparator(a: string, sep: char)
    requires sep !in a
    ensures Split(a, sep) == [a]
  {
    if a != [] {
      SplitWithoutSeparator(a[1..], sep);
      assert [a[0]] + a[1..] == a;
    }
  }

  lemma {:induction false} SplitAtSeparator(a: string, rest: string, sep: char)
    requires sep !in a
    ensures Split(a + [sep] + rest, sep) == [a] + Split(rest, sep)
  {
    var s := a + [sep] + rest;
    if a == [] {
      assert s[1..] == rest;
    } else {
      assert s[1..] == a[1..] + [sep] + rest;
      SplitAtSeparator(a[1..], rest, sep);
      assert [a[0]] + a[1..] == a;
    }
  }

  /** The inverse direction of JoinSplit: pieces without the separator come back from their join. */
  lemma {:induction false} SplitJoin(pieces: seq<string>, sep: char)
    requires |pieces| >= 1
    requires forall k :: 0 <= k < |pieces| ==> sep !in pieces[k]
    ensures Split(Join(pieces, sep), sep) == pieces
  {
    if |pieces| == 1 {
      SplitWithoutSeparator(pieces[0], sep);
    } else {
      SplitJoin(pieces[1..], sep);
      SplitAtSeparator(pieces[0], Join(pieces[1..], sep), sep);
      assert [pieces[0]] + pieces[1..] == pieces;
    }
  }

  lemma {:induction false} JoinChars(pieces: seq<string>, sep: char, c: char)
    requires c != sep
    requires forall k :: 0 <= k < |pieces| ==> c !in pieces[k]
    ensures c !in Join(pieces, sep)
  {
    if |pieces| > 1 {
      JoinChars(pieces[1..], sep, c);
    }
  }

  /** The join of trimmed pieces starts and ends with a piece's own character or the separator. */
  lemma {:induction false} JoinTrimmed(pieces: seq<string>, sep: char)
    requires !IsWhite(sep)
    requires forall k :: 0 <= k < |pieces| ==> Trimmed(pieces[k])
    ensures Trimmed(Join(pieces, sep))
  {
    if |pieces| > 1 {
      JoinTrimmed(pieces[1..], sep);
      var tail := Join(pieces[1..], sep);
      var j := pieces[0] + [sep] + tail;
      assert j[0] == (if pieces[0] == [] then sep else pieces[0][0]);
      assert j[|j| - 1] == (if tail == [] then sep else tail[|tail| - 1]);
    }
  }

  lemma {:induction false} TrimTrimmed(s: string)
    requires Trimmed(s)
    ensures Trim(s) == s
  {
    assert TrimStart(s) == s;
    assert TrimEnd(s) == s;
  }

  lemma {:induction false} RemoveAllAbsent(s: string, c: char)
    requires c !in s
    ensures RemoveAll(s, c) == s
  {
    if s != [] {
      RemoveAllAbsent(s[1..], c);
      assert [s[0]] + s[1..] == s;
    }
  }

  /** A text with no line feed that is already trimmed and non-empty is one record line. */
  lemma {:induction false} SingleRecordLine(line: string)
    requires '\n' !in line && line != "" && Trimmed(line)
    ensures RecordLines(line) == [line]
  {
    SplitWithoutSeparator(line, '\n');
    assert Lines(line) == [line];
    TrimTrimmed(line);
    var trimmed := TrimAll(Lines(line));
    assert trimmed == [line];
    assert trimmed[1..] == [];
  }

  lemma {:induction false} FieldsOfJoin(fields: seq<string>)
    requires |fields| >= 1
    requires forall k :: 0 <= k < |fields| ==> Trimmed(fields[k]) && '"' !in fields[k] && ';' !in fields[k]
    ensures Fields(Join(fields, ';')) == fields
  {
    SplitJoin(fields, ';');
    forall k | 0 <= k < |fields| ensures CleanField(fields[k]) == fields[k] {
      RemoveAllAbsent(fields[k], '"');
      TrimTrimmed(fields[k]);
    }
  }

  /**
   * Round trip: a line written from fields that hold no `"`, `;` or line
   * feed and carry no surrounding white space parses back into exactly
   * those fields, as one row.
   */
  lemma ParseCsvOfJoinedFields(fields: seq<string>)
    requires |fields| >= 1 && !(|fields| == 1 && fields[0] == "")
    requires forall k :: 0 <= k < |fields| ==> Trimmed(fields[k]) && '"' !in fields[k] && ';' !in fields[k] && '\n' !in fields[k]
    ensures ParseCsv(Join(fields, ';')) == [fields]
  {
    var line := Join(fields, ';');
    JoinChars(fields, ';', '\n');
    JoinTrimmed(fields, ';');
    assert line != "" by {
      if |fields| > 1 {
        assert line == fields[0] + [';'] + Join(fields[1..], ';');
      }
    }
    SingleRecordLine(line);
    FieldsOfJoin(fields);
    ParseCsvOfOneLine(line);
  }

  lemma ParseCsvOfOneLine(line: string)
    requires RecordLines(line) == [line]
    ensures ParseCsv(line) == [Fields(line)]
  {
  }
}
