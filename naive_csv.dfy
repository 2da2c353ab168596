/** The hand-written CSV readers: split the text on newlines and each line on
    commas (no quoting), trim every header and cell, and give '' for a cell the
    line does not have. The trainers page and the seeding script read a file
    this way; the profile page differs only in dropping blank lines before it
    takes the header line. */
module NaiveCsv {
  import opened JsValues
  import opened Seqs

  /** One record: header name to trimmed cell text. */
  type Record = map<string, string>

  predicate IsBlank(line: string)
  {
    Trim(line) == ""
  }

  /** The cell under header number `i`: `(cells[i] || '').trim()`. */
  function CellAt(cells: seq<string>, i: nat): string
  {
    if i < |cells| then Trim(cells[i]) else ""
  }

  /** `headers.forEach((h, i) => obj[h.trim()] = ...)`: a later duplicate header overwrites an earlier one. */
  function RecordOf(headers: seq<string>, cells: seq<string>): Record
  {
    if headers == [] then map[]
    else
      var i := |headers| - 1;
      RecordOf(headers[..i], cells)[Trim(headers[i]) := CellAt(cells, i)]
  }

  /** Records of every non-blank line after the first, which is the header line. */
  function RecordsOf(headers: seq<string>, lines: seq<string>): seq<Record>
  {
    if lines == [] then []
    else
      var last := lines[|lines| - 1];
      RecordsOf(headers, lines[..|lines| - 1])
      + (if IsBlank(last) then [] else [RecordOf(headers, Split(last, ','))])
  }

  /** The trainers page and the seeding script: line 0 is the header, blank lines are skipped. */
  function CsvRecords(text: string): seq<Record>
  {
    var lines := Split(text, '\n');
    if |lines| == 0 then [] else RecordsOf(Split(lines[0], ','), lines[1..])
  }

  /** The profile page: blank lines are dropped first, so the header is the first
      non-blank line; with no such line reading `lines[0]` throws (None). */
  function ProfileRecords(text: string): Option<seq<Record>>
  {
    var lines := Filter(Split(text, '\n'), (l: string) => !IsBlank(l));
    if lines == [] then None
    else Some(RecordsOf(Split(lines[0], ','), lines[1..]))
  }

  // ---------------------------------------------------------------------------
  // Properties

  predicate Trimmed(s: string)
  {
    s == [] || (!IsSpace(s[0]) && !IsSpace(s[|s| - 1]))
  }

  lemma {:induction false} TrimStartFacts(s: string)
    ensures TrimStart(s) == [] || !IsSpace(TrimStart(s)[0])
    ensures |TrimStart(s)| <= |s| && TrimStart(s) == s[|s| - |TrimStart(s)|..]
  {
    if s != [] && IsSpace(s[0]) {
      TrimStartFacts(s[1..]);
    }
  }

  lemma {:induction false} TrimEndFacts(s: string)
    ensures TrimEnd(s) == [] || !IsSpace(TrimEnd(s)[|TrimEnd(s)| - 1])
    ensures |TrimEnd(s)| <= |s| && TrimEnd(s) == s[..|TrimEnd(s)|]
  {
    if s != [] && IsSpace(s[|s| - 1]) {
      TrimEndFacts(s[..|s| - 1]);
    }
  }

  /** A trimmed string has no white space at either end. */
  lemma TrimIsTrimmed(s: string)
    ensures Trimmed(Trim(s))
  {
    TrimStartFacts(s);
    TrimEndFacts(TrimStart(s));
  }

  function Keys(headers: seq<string>): set<string>
  {
    set i | 0 <= i < |headers| :: Trim(headers[i])
  }

  /** Header number `i` is the last one with its trimmed name, so its cell is the one kept. */
  predicate LastWithName(headers: seq<string>, i: nat)
    requires i < |headers|
  {
    forall j :: i < j < |headers| ==> Trim(headers[j]) != Trim(headers[i])
  }

  lemma KeysAppend(headers: seq<string>)
    requires headers != []
    ensures Keys(headers) == Keys(headers[..|headers| - 1]) + {Trim(headers[|headers| - 1])}
  {
    var n := |headers| - 1;
    var init := headers[..n];
    forall k | k in Keys(headers) ensures k in Keys(init) + {Trim(headers[n])} {
      var i :| 0 <= i < |headers| && Trim(headers[i]) == k;
      if i < n {
        assert Trim(init[i]) == k;
      }
    }
    forall k | k in Keys(init) ensures k in Keys(headers) {
      var i :| 0 <= i < |init| && Trim(init[i]) == k;
      assert Trim(headers[i]) == k;
    }
  }

  /** A record has exactly the trimmed headers as keys, and every value is trimmed. */
  lemma {:induction false} RecordOfShape(headers: seq<string>, cells: seq<string>)
    ensures RecordOf(headers, cells).Keys == Keys(headers)
    ensures forall k :: k in RecordOf(headers, cells) ==> Trimmed(RecordOf(headers, cells)[k])
  {
    if headers != [] {
      var n := |headers| - 1;
      RecordOfShape(headers[..n], cells);
      KeysAppend(headers);
      if n < |cells| {
        TrimIsTrimmed(cells[n]);
      }
    }
  }

  /** Each header that is the last with its name holds its own trimmed cell, or ''
      when the line has fewer cells than there are headers. */
  lemma {:induction false} RecordOfCell(headers: seq<string>, cells: seq<string>, i: nat)
    requires i < |headers| && LastWithName(headers, i)
    ensures Trim(headers[i]) in RecordOf(headers, cells)
    ensures RecordOf(headers, cells)[Trim(headers[i])] == CellAt(cells, i)
    ensures i >= |cells| ==> RecordOf(headers, cells)[Trim(headers[i])] == ""
  {
    var n := |headers| - 1;
    if i < n {
      var init := headers[..n];
      assert Trim(headers[n]) != Trim(headers[i]);
      assert LastWithName(init, i) by {
        forall j | i < j < |init| ensures Trim(init[j]) != Trim(init[i]) {
          assert init[j] == headers[j];
        }
      }
      RecordOfCell(init, cells, i);
    }
  }

  /** Blank lines produce no record; every other line after the header produces
      exactly one, in file order. */
  lemma {:induction false} RecordsOfCount(headers: seq<string>, lines: seq<string>)
    ensures |RecordsOf(headers, lines)| == |Filter(lines, (l: string) => !IsBlank(l))|
    ensures forall r :: r in RecordsOf(headers, lines) ==> r.Keys == Keys(headers)
  {
    if lines != [] {
      RecordsOfCount(headers, lines[..|lines| - 1]);
      RecordOfShape(headers, Split(lines[|lines| - 1], ','));
    }
  }
}
