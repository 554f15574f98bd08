/**
 The records a DHCP hook writes into the event pipe: `key=value` lines, a blank line after each record.
 One reader gets the bytes in arbitrary pieces; the other reads whole lines from a stream that ends.
 */
module HookRecords {
  import opened Text

  type Record = map<string, string>

  // ---- One line -------------------------------------------------------------------------------

  function IndexOf(text: string, c: char): (i: nat)
    ensures i <= |text| && (i < |text| ==> text[i] == c)
    ensures forall k | 0 <= k < i :: text[k] != c
  {
    if text == "" || text[0] == c then 0 else 1 + IndexOf(text[1..], c)
  }

  predicate Assigns(line: string) { IndexOf(line, '=') < |line| }

  // A line without `=` is passed over.
  function Put(values: Record, line: string): Record {
    var cut := IndexOf(line, '=');
    if cut < |line| then values[Trim(line[..cut]) := Trim(line[cut + 1..])] else values
  }

  datatype Progress = Progress(records: seq<Record>, values: Record)

  function TakeLine(p: Progress, raw: string): Progress {
    var line := Trim(raw);
    if line != "" then p.(values := Put(p.values, line))
    else if p.values == map[] then p
    else Progress(p.records + [p.values], map[])
  }

  function TakeLines(p: Progress, lines: seq<string>): Progress
    decreases |lines|
  {
    if lines == [] then p else TakeLine(TakeLines(p, lines[..|lines| - 1]), lines[|lines| - 1])
  }

  function Flush(p: Progress): Progress { TakeLine(p, "") }

  lemma {:induction false} TakeLinesSplit(p: Progress, a: seq<string>, b: seq<string>)
    ensures TakeLines(p, a + b) == TakeLines(TakeLines(p, a), b)
    decreases |b|
  {
    hide TakeLine;
    if b == [] {
      assert a + b == a;
    } else {
      TakeLinesSplit(p, a, b[..|b| - 1]);
      assert (a + b)[..|a + b| - 1] == a + b[..|b| - 1];
    }
  }

  // ---- The lines of a stream --------------------------------------------------------------------

  function Complete(text: string): seq<string>
    decreases |text|
  {
    var cut := IndexOf(text, '\n');
    if cut < |text| then [text[..cut]] + Complete(text[cut + 1..]) else []
  }

  function Rest(text: string): string
    decreases |text|
  {
    var cut := IndexOf(text, '\n');
    if cut < |text| then Rest(text[cut + 1..]) else text
  }

  lemma {:induction false} FirstLine(text: string)
    ensures var cut := IndexOf(text, '\n');
            if cut < |text| then
              Complete(text) == [text[..cut]] + Complete(text[cut + 1..]) && Rest(text) == Rest(text[cut + 1..])
            else Complete(text) == [] && Rest(text) == text
  {
    hide IndexOf;
  }

  lemma {:induction false} StreamSplit(a: string, b: string)
    ensures Complete(a + b) == Complete(a) + Complete(Rest(a) + b)
    ensures Rest(a + b) == Rest(Rest(a) + b)
    decreases |a|
  {
    hide IndexOf, Complete, Rest;
    var cut := IndexOf(a, '\n');
    FirstLine(a);
    if cut < |a| {
      StreamSplit(a[cut + 1..], b);
      IndexOfSplit(a, b);
      FirstLine(a + b);
      assert (a + b)[cut + 1..] == a[cut + 1..] + b;
      assert (a + b)[..cut] == a[..cut];
    }
  }

  lemma IndexOfSplit(a: string, b: string)
    requires IndexOf(a, '\n') < |a|
    ensures IndexOf(a + b, '\n') == IndexOf(a, '\n')
  {
    var i, j := IndexOf(a, '\n'), IndexOf(a + b, '\n');
    assert forall k | 0 <= k < |a| :: (a + b)[k] == a[k];
    assert (a + b)[i] == '\n';
  }

  // What the stream says: every complete line, in order.
  function Read(text: string): Progress { TakeLines(Progress([], map[]), Complete(text)) }

  /** Reading on from the leftover of a piece is reading the whole stream. */
  lemma PiecesDoNotMatter(a: string, b: string)
    ensures Read(a + b) == TakeLines(Read(a), Complete(Rest(a) + b))
  {
    StreamSplit(a, b);
    TakeLinesSplit(Progress([], map[]), Complete(a), Complete(Rest(a) + b));
  }

  lemma {:induction false} RecordsOnlyGrow(p: Progress, lines: seq<string>)
    ensures p.records <= TakeLines(p, lines).records
    decreases |lines|
  {
    if lines != [] { RecordsOnlyGrow(p, lines[..|lines| - 1]); }
  }

  /** A record once delivered stays the record at that place, whatever else arrives. */
  lemma DeliveredRecordsStay(a: string, b: string)
    ensures Read(a).records <= Read(a + b).records
  {
    PiecesDoNotMatter(a, b);
    RecordsOnlyGrow(Read(a), Complete(Rest(a) + b));
  }

  // ---- The reader of pieces -----------------------------------------------------------------------

  class PipeReader {
    var pending: string
    var values: Record
    var delivered: seq<Record>
    ghost var received: string

    ghost predicate Valid()
      reads this
    {
      pending == Rest(received) && Progress(delivered, values) == Read(received)
    }

    constructor ()
      ensures Valid() && received == "" && delivered == []
    {
      pending, values, delivered, received := "", map[], [], "";
    }

    // One successful read of readEvents.
    method Receive(piece: string)
      requires Valid()
      modifies this
      ensures Valid() && received == old(received) + piece
      ensures old(delivered) <= delivered
    {
      hide Read, TakeLine, TakeLines, Complete, Rest, IndexOf, Trim, Put;
      StreamSplit(received, piece);
      PiecesDoNotMatter(received, piece);
      DeliveredRecordsStay(received, piece);
      ghost var start := Progress(delivered, values);
      received := received + piece;
      pending := pending + piece;
      ghost var buffer := pending;
      ghost var taken: seq<string> := [];
      var index := IndexOf(pending, '\n');
      OneMoreLine(start, [], "");
      while index < |pending|
        invariant index == IndexOf(pending, '\n')
        invariant Complete(buffer) == taken + Complete(pending) && Rest(buffer) == Rest(pending)
        invariant Progress(delivered, values) == TakeLines(start, taken)
        invariant received == old(received) + piece
        decreases |pending|
      {
        ghost var raw := pending[..index];
        ghost var longer := taken + [raw];
        FirstLine(pending);
        OneMoreLine(start, taken, raw);
        assert taken + ([raw] + Complete(pending[index + 1..])) == longer + Complete(pending[index + 1..]);
        LineTaken(Progress(delivered, values), raw);
        var line := Trim(pending[..index]);
        pending := pending[index + 1..];
        if line == "" {
          if values != map[] {
            delivered := delivered + [values];
            values := map[];
          }
        } else if Assigns(line) {
          values := Put(values, line);
        }
        taken := longer;
        index := IndexOf(pending, '\n');
      }
      FirstLine(pending);
      assert taken + [] == taken;
    }
  }

  lemma OneMoreLine(p: Progress, lines: seq<string>, raw: string)
    ensures TakeLines(p, lines + [raw]) == TakeLine(TakeLines(p, lines), raw) && TakeLines(p, []) == p
  {
    assert (lines + [raw])[..|lines|] == lines;
  }

  lemma LineTaken(p: Progress, raw: string)
    ensures Trim(raw) == "" && p.values == map[] ==> TakeLine(p, raw) == p
    ensures Trim(raw) == "" && p.values != map[] ==> TakeLine(p, raw) == Progress(p.records + [p.values], map[])
    ensures Trim(raw) != "" ==> TakeLine(p, raw) == p.(values := Put(p.values, Trim(raw)))
    ensures !Assigns(Trim(raw)) ==> Put(p.values, Trim(raw)) == p.values
  {}

  // ---- The reader of lines ------------------------------------------------------------------------

  // A line scanner drops one carriage return before the end of a line, and gives the last line without an end.
  function DropReturn(line: string): string {
    if line != "" && line[|line| - 1] == '\r' then line[..|line| - 1] else line
  }

  function Unended(text: string): seq<string> { if Rest(text) == "" then [] else [Rest(text)] }

  function ScannedLines(text: string): seq<string> {
    var lines := Complete(text) + Unended(text);
    seq(|lines|, i requires 0 <= i < |lines| => DropReturn(lines[i]))
  }

  lemma ReturnIsTrimmed(line: string)
    ensures Trim(DropReturn(line)) == Trim(line)
  {}

  lemma {:induction false} ReturnsAreTrimmed(p: Progress, lines: seq<string>)
    ensures TakeLines(p, seq(|lines|, i requires 0 <= i < |lines| => DropReturn(lines[i]))) == TakeLines(p, lines)
    decreases |lines|
  {
    hide Trim, DropReturn;
    if lines != [] {
      var last := |lines| - 1;
      var before := lines[..last];
      ReturnsAreTrimmed(p, before);
      ReturnIsTrimmed(lines[last]);
      var all := seq(|lines|, i requires 0 <= i < |lines| => DropReturn(lines[i]));
      assert all[..last] == seq(|before|, i requires 0 <= i < |before| => DropReturn(before[i]));
    }
  }

  function ReadLines(text: string): seq<Record> {
    Flush(TakeLines(Progress([], map[]), Complete(text) + Unended(text))).records
  }

  // handleEventLines.
  method HandleEventLines(text: string) returns (delivered: seq<Record>)
    ensures delivered == ReadLines(text)
  {
    hide TakeLine;
    var lines := ScannedLines(text);
    var values: Record := map[];
    delivered := [];
    for i := 0 to |lines|
      invariant Progress(delivered, values) == TakeLines(Progress([], map[]), lines[..i])
    {
      assert lines[..i + 1][..i] == lines[..i];
      LineTaken(Progress(delivered, values), lines[i]);
      var line := Trim(lines[i]);
      if line == "" {
        if values != map[] { delivered, values := delivered + [values], map[]; }
      } else if Assigns(line) {
        values := Put(values, line);
      }
    }
    assert lines[..|lines|] == lines;
    ReturnsAreTrimmed(Progress([], map[]), Complete(text) + Unended(text));
    LineTaken(Progress(delivered, values), "");
    if values != map[] { delivered := delivered + [values]; }
  }

  // ---- Agreement ------------------------------------------------------------------------------------

  // Some assignment is not followed by a blank line.
  ghost predicate Dangling(lines: seq<string>) {
    exists i | 0 <= i < |lines| ::
      Assigns(Trim(lines[i])) && forall j | i < j < |lines| :: Trim(lines[j]) != ""
  }

  lemma NothingDangles()
    ensures !Dangling([])
  {}

  lemma PutOpens(values: Record, line: string)
    ensures Put(values, line) != map[] <==> values != map[] || Assigns(line)
  {
    var cut := IndexOf(line, '=');
    if cut < |line| { assert Trim(line[..cut]) in Put(values, line); }
  }

  lemma {:induction false} OpenIffDangling(lines: seq<string>)
    ensures TakeLines(Progress([], map[]), lines).values != map[] <==> Dangling(lines)
    decreases |lines|
  {
    hide Trim, TakeLine, Put, Dangling, Assigns;
    if lines == [] { assert !Dangling(lines) by { NothingDangles(); } }
    if lines != [] {
      var last := |lines| - 1;
      var before := lines[..last];
      OpenIffDangling(before);
      DanglingLast(lines);
      BlankText();
      var p := TakeLines(Progress([], map[]), before);
      LineTaken(p, lines[last]);
      PutOpens(p.values, Trim(lines[last]));
    }
  }

  lemma DanglingLast(lines: seq<string>)
    requires lines != []
    ensures var last := |lines| - 1;
            Dangling(lines) <==>
            Assigns(Trim(lines[last])) || (Dangling(lines[..last]) && Trim(lines[last]) != "")
  {
    hide Trim, Assigns;
    var last := |lines| - 1;
    var before := lines[..last];
    if Dangling(before) && Trim(lines[last]) != "" {
      var i :| 0 <= i < last && Assigns(Trim(before[i])) && forall j | i < j < last :: Trim(before[j]) != "";
      assert Assigns(Trim(lines[i]));
      forall j | i < j < |lines| ensures Trim(lines[j]) != "" {
        if j < last { assert Trim(before[j]) != ""; }
      }
    }
    if Dangling(lines) && !Assigns(Trim(lines[last])) {
      var i :| 0 <= i < |lines| && Assigns(Trim(lines[i])) && forall j | i < j < |lines| :: Trim(lines[j]) != "";
      assert Assigns(Trim(before[i]));
      forall j | i < j < last ensures Trim(before[j]) != "" { assert Trim(lines[j]) != ""; }
    }
  }

  /**
   The two readers deliver the same records if and only if every assignment is followed by a blank line
   that has its line end. (A blank last line without one closes a record for the line reader only.)
   */
  lemma ReadersAgreeIff(text: string)
    ensures Read(text).records == ReadLines(text) <==> !Dangling(Complete(text)) && !Assigns(Trim(Rest(text)))
  {
    hide TakeLine, Dangling, Trim;
    var start := Progress([], map[]);
    var p := Read(text);
    OpenIffDangling(Complete(text));
    TakeLinesSplit(start, Complete(text), Unended(text));
    BlankText();
    var tail := Unended(text);
    var q := TakeLines(p, tail);
    if tail != [] {
      assert tail[..0] == [];
      LineTaken(p, Rest(text));
      PutOpens(p.values, Trim(Rest(text)));
    }
    LineTaken(q, "");
  }

  lemma BlankText()
    ensures Trim("") == "" && !Assigns("")
  {}

  lemma {:induction false} RestHasText(text: string)
    ensures forall i | 0 <= i < |Rest(text)| :: Rest(text)[i] != '\n'
    decreases |text|
  {
    var cut := IndexOf(text, '\n');
    if cut < |text| { RestHasText(text[cut + 1..]); }
  }

  /** They agree on every stream that ends with an empty line. */
  lemma ReadersAgreeOnEndedStreams(body: string)
    ensures Read(body + "\n\n").records == ReadLines(body + "\n\n")
  {
    hide TakeLine, Trim, Dangling;
    var text, r := body + "\n\n", Rest(body);
    StreamSplit(body, "\n\n");
    RestHasText(body);
    var tail := r + "\n\n";
    assert IndexOf(tail, '\n') == |r| by {
      assert tail[|r|] == '\n';
      assert forall k | 0 <= k < |r| :: tail[k] == r[k];
    }
    assert tail[|r| + 1..] == "\n" && IndexOf("\n", '\n') == 0 && "\n"[1..] == "";
    assert Complete("") == [] && Rest("") == "" && "\n"[..0] == "";
    assert Complete("\n") == [""] && Rest("\n") == "";
    assert Complete(tail) == [tail[..|r|]] + [""] && Rest(tail) == "";
    BlankText();
    var lines := Complete(text);
    assert lines[|lines| - 1] == "";
    DanglingLast(lines);
    ReadersAgreeIff(text);
  }
}
