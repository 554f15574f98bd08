/** Records as the hook writes them, in plain terms: which characters are trimmed, and which side of `=` is the key. */
module HookLaws {
  import opened Text
  import opened HookRecords

  predicate White(c: char) { 9 <= c as int <= 13 || c as int == 32 }

  predicate AllWhite(text: string) { forall i | 0 <= i < |text| :: White(text[i]) }

  lemma SpaceIsWhite(c: char)
    ensures Space(c) <==> White(c)
  {
    assert ' ' as int == 32 && '\t' as int == 9 && '\n' as int == 10 && '\r' as int == 13;
  }

  lemma {:induction false} LeftPart(text: string) returns (before: string)
    ensures text == before + TrimLeft(text) && AllWhite(before)
    ensures TrimLeft(text) != "" ==> !White(TrimLeft(text)[0])
  {
    if text != "" { SpaceIsWhite(text[0]); }
    if text != "" && Space(text[0]) {
      var rest := LeftPart(text[1..]);
      before := [text[0]] + rest;
      assert text == [text[0]] + text[1..];
    } else {
      before := "";
    }
  }

  lemma {:induction false} RightPart(text: string) returns (after: string)
    ensures text == TrimRight(text) + after && AllWhite(after)
    ensures TrimRight(text) != "" ==> !White(TrimRight(text)[|TrimRight(text)| - 1])
  {
    var last := |text| - 1;
    if text != "" { SpaceIsWhite(text[last]); }
    if text != "" && Space(text[last]) {
      var rest := RightPart(text[..last]);
      after := rest + [text[last]];
      assert text == text[..last] + [text[last]];
    } else {
      after := "";
    }
  }

  /** Trimming takes the white characters 9 to 13 and 32 from both ends, all of them and nothing else. */
  lemma TrimTakesWhite(text: string) returns (before: string, after: string)
    ensures text == before + Trim(text) + after && AllWhite(before) && AllWhite(after)
    ensures Trim(text) != "" ==> !White(Trim(text)[0]) && !White(Trim(text)[|Trim(text)| - 1])
  {
    after := RightPart(text);
    var middle := TrimRight(text);
    before := LeftPart(middle);
    if Trim(text) != "" { assert middle[|middle| - 1] == Trim(text)[|Trim(text)| - 1]; }
  }

  // Nothing to trim.
  predicate Tight(text: string) { text != "" ==> !White(text[0]) && !White(text[|text| - 1]) }

  lemma TightStays(text: string)
    requires Tight(text)
    ensures Trim(text) == text
  {
    if text != "" {
      SpaceIsWhite(text[0]);
      SpaceIsWhite(text[|text| - 1]);
    }
  }

  /** The key is before the first `=`, the value after it, both trimmed; a line without `=` is passed over. */
  lemma PutMeans(values: Record, key: string, value: string)
    requires '=' !in key
    ensures Put(values, key + "=" + value) == values[Trim(key) := Trim(value)]
    ensures Put(values, key) == values
  {
    var line := key + ("=" + value);
    assert key + "=" + value == line;
    var cut := IndexOf(line, '=');
    assert line[|key|] == '=';
    assert forall i | 0 <= i < |key| :: line[i] == key[i] && key[i] in key;
    assert cut == |key| && line[..cut] == key && line[cut + 1..] == value;
    assert forall i | 0 <= i < |key| :: key[i] in key;
    assert IndexOf(key, '=') == |key|;
  }

  // ---- A whole record --------------------------------------------------------------------------

  datatype Field = Field(key: string, value: string)

  predicate Clean(f: Field) {
    && f.key != "" && Tight(f.key) && Tight(f.value) && '=' !in f.key
    && '\n' !in f.key && '\n' !in f.value
  }

  function LineOf(f: Field): string { f.key + "=" + f.value }

  function TextOf(fields: seq<Field>): string {
    if fields == [] then "\n" else LineOf(fields[0]) + "\n" + TextOf(fields[1..])
  }

  function ValuesOf(values: Record, fields: seq<Field>): Record
    decreases |fields|
  {
    if fields == [] then values else ValuesOf(values[fields[0].key := fields[0].value], fields[1..])
  }

  lemma CleanLine(f: Field, p: Progress)
    requires Clean(f)
    ensures '\n' !in LineOf(f)
    ensures TakeLine(p, LineOf(f)) == p.(values := p.values[f.key := f.value])
  {
    var line := LineOf(f);
    assert line == f.key + ("=" + f.value) && line[0] == f.key[0];
    assert '=' as int == 61;
    assert f.value != "" ==> line[|line| - 1] == f.value[|f.value| - 1];
    assert f.value == "" ==> line[|line| - 1] == '=';
    TightStays(line);
    TightStays(f.key);
    TightStays(f.value);
    hide Trim, Put;
    PutMeans(p.values, f.key, f.value);
  }

  lemma LineComesFirst(line: string, rest: string)
    requires '\n' !in line
    ensures Complete(line + "\n" + rest) == [line] + Complete(rest)
  {
    var text := line + ("\n" + rest);
    assert line + "\n" + rest == text;
    FirstLine(text);
    assert text[|line|] == '\n';
    assert forall i | 0 <= i < |line| :: text[i] == line[i] && line[i] in line;
    assert IndexOf(text, '\n') == |line| && text[..|line|] == line && text[|line| + 1..] == rest;
  }

  lemma {:induction false} FieldsTaken(p: Progress, fields: seq<Field>)
    requires forall i | 0 <= i < |fields| :: Clean(fields[i])
    requires ValuesOf(p.values, fields) != map[]
    ensures TakeLines(p, Complete(TextOf(fields))) == Progress(p.records + [ValuesOf(p.values, fields)], map[])
    decreases |fields|
  {
    hide TakeLine, Complete, TakeLines, Clean, LineOf;
    if fields == [] {
      LineComesFirst("", "");
      assert "" + "\n" + "" == "\n";
      NothingComplete();
      assert Complete("\n") == [""] + [] == [] + [""];
      OneMoreLine(p, [], "");
      BlankText();
      LineTaken(p, "");
    } else {
      var f, rest := fields[0], TextOf(fields[1..]);
      CleanLine(f, p);
      LineComesFirst(LineOf(f), rest);
      var p1 := TakeLine(p, LineOf(f));
      TakeLinesSplit(p, [LineOf(f)], Complete(rest));
      assert [] + [LineOf(f)] == [LineOf(f)];
      OneMoreLine(p, [], LineOf(f));
      FieldsTaken(p1, fields[1..]);
    }
  }

  lemma NothingComplete()
    ensures Complete("") == []
  {}

  /** A written record, key by key with a blank line behind it, is delivered as exactly these fields. */
  lemma WrittenRecordIsRead(fields: seq<Field>)
    requires fields != [] && forall i | 0 <= i < |fields| :: Clean(fields[i])
    ensures Read(TextOf(fields)) == Progress([ValuesOf(map[], fields)], map[])
  {
    ValuesStay(map[fields[0].key := fields[0].value], fields[1..], fields[0].key);
    FieldsTaken(Progress([], map[]), fields);
  }

  lemma {:induction false} ValuesStay(values: Record, fields: seq<Field>, key: string)
    requires key in values
    ensures key in ValuesOf(values, fields)
    decreases |fields|
  {
    if fields != [] { ValuesStay(values[fields[0].key := fields[0].value], fields[1..], key); }
  }
}
