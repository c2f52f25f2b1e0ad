/**
 * The label file of the detector: one `id:name` line per object class. Each
 * line is stripped and split on ':'; it must give exactly two fields, the
 * first read with `int()`, the second kept stripped. The first bad line ends
 * the load with an error; a later line for the same id overwrites the earlier
 * one. Both lift_final.py and ssd_camera.py load the file the same way.
 */
module Labels {
  import opened PyText

  /** Class id to class name, as the loaded dictionary holds it. */
  type LabelDict = map<int, string>

  datatype Entry = Entry(id: int, name: string)

  /** Why a line is refused; both raise `ValueError` in the source. */
  datatype LineError =
    | WrongFieldCount(fields: nat)   // not exactly one ':' in the stripped line
    | BadId(text: string)            // the part before ':' is not an integer

  /** The first refused line, counted from 0, and why. */
  datatype LoadError = LoadError(line: nat, reason: LineError)

  /** One line of the label file. */
  function ParseLine(line: string): Result<Entry, LineError> {
    var fields := Split(Strip(line), ':');
    if |fields| != 2 then Err(WrongFieldCount(|fields|))
    else match ParseInt(fields[0])
      case None => Err(BadId(fields[0]))
      case Some(id) => Ok(Entry(id, Strip(fields[1])))
  }

  /**
   * A line is refused for its shape exactly when its stripped text does not
   * hold exactly one ':'. A line of the right shape is accepted exactly when
   * `int()` reads the field before the ':', and its entry is that number with
   * the stripped field after the ':'; the name then holds no ':' and has no
   * whitespace at its ends.
   */
  lemma ParseLineShape(line: string)
    ensures var r, fields := ParseLine(line), Split(Strip(line), ':');
      && (r.Err? && r.error.WrongFieldCount? <==> Count(Strip(line), ':') != 1)
      && (|fields| == 2 ==> (r.Ok? <==> ParseInt(fields[0]).Some?))
      && (|fields| == 2 && r.Ok? ==> r.value == Entry(ParseInt(fields[0]).value, Strip(fields[1])))
      && (r.Ok? ==> ':' !in r.value.name && Unpadded(r.value.name))
  {
    var fields := Split(Strip(line), ':');
    if |fields| != 2 {
      assert ParseLine(line) == Err(WrongFieldCount(|fields|));
    } else {
      StripIdempotent(fields[1]);
      StripKeeps(fields[1]);
      assert ':' !in fields[1];
      match ParseInt(fields[0])
      case None =>
        assert ParseLine(line) == Err(BadId(fields[0]));
      case Some(id) =>
        assert ParseLine(line) == Ok(Entry(id, Strip(fields[1])));
    }
  }

  /** An id holding one of the separators U+001C to U+001F is refused, even though `strip()` would remove it at the ends of the line. */
  lemma SeparatorInIdRefused(line: string, j: int)
    requires var fields := Split(Strip(line), ':'); |fields| == 2 && 0 <= j < |fields[0]| && IsSeparator(fields[0][j])
    ensures ParseLine(line) == Err(BadId(Split(Strip(line), ':')[0]))
  {
    ParseIntRefusesSeparator(Split(Strip(line), ':')[0], j);
  }

  /** `strip()` leaves text it has already stripped alone. */
  lemma StripIdempotent(s: string)
    ensures Strip(Strip(s)) == Strip(s)
  {
    StripUnpadded(Strip(s));
  }

  /** `strip()` never adds a character. */
  lemma StripKeeps(s: string)
    ensures forall c :: c in Strip(s) ==> c in s
  {
    var r := Strip(s);
    var a :| TrimmedSlice(s, a, r, IsSpace);
    SliceKeeps(s, a, a + |r|);
  }

  /** A slice holds only characters of the text it is cut from. */
  lemma SliceKeeps(s: string, lo: int, hi: int)
    requires 0 <= lo <= hi <= |s|
    ensures forall c :: c in s[lo..hi] ==> c in s
  {
    forall c | c in s[lo..hi] ensures c in s {
      var i :| 0 <= i < hi - lo && s[lo..hi][i] == c;
      assert s[lo + i] == c;
    }
  }

  /** The text form of an entry: the id in decimal, ':', the name. */
  function Render(e: Entry): string {
    Decimal(e.id) + ":" + e.name
  }

  lemma DecimalNoColon(n: int)
    ensures ':' !in Decimal(n)
  {
    var d := Decimal(n);
    DecimalShape(n);
    forall i | 0 <= i < |d| ensures d[i] != ':' {
      assert IsDigit(d[i]) || d[i] == '-';
    }
  }

  /** The text form of an entry splits at its one ':' into the id's digits and the name. */
  lemma RenderSplit(e: Entry)
    requires ':' !in e.name
    ensures Split(Render(e), ':') == [Decimal(e.id), e.name]
  {
    var parts := [Decimal(e.id), e.name];
    DecimalNoColon(e.id);
    assert Join(parts[1..], ':') == e.name;
    assert Join(parts, ':') == Render(e);
    SplitJoin(parts, ':');
  }

  /** Text around a ':' starts as its first part starts and ends as its last part ends. */
  lemma ColonJoinUnpadded(d: string, name: string)
    requires d != [] && !IsSpace(d[0])
    requires name == [] || !IsSpace(name[|name| - 1])
    ensures Unpadded(d + ":" + name)
  {
    var line := d + ":" + name;
    assert line[0] == d[0];
    if name == [] {
      assert line[|line| - 1] == ':';
    } else {
      assert line[|line| - 1] == name[|name| - 1];
    }
  }

  /** The text form of an entry with a stripped name has no whitespace at either end. */
  lemma RenderUnpadded(e: Entry)
    requires Unpadded(e.name)
    ensures Render(e) != [] && Unpadded(Render(e))
  {
    DecimalShape(e.id);
    ColonJoinUnpadded(Decimal(e.id), e.name);
  }

  /** `strip()` leaves the text form of an entry with a stripped name alone. */
  lemma RenderStripBare(e: Entry)
    requires Unpadded(e.name)
    ensures Strip(Render(e)) == Render(e)
  {
    RenderUnpadded(e);
    StripUnpadded(Render(e));
  }

  /** `strip()` removes only the newline from a file line holding the text form of an entry. */
  lemma RenderStripNewline(e: Entry)
    requires Unpadded(e.name)
    ensures Strip(Render(e) + "\n") == Render(e)
  {
    RenderUnpadded(e);
    StripNewline(Render(e), '\n');
  }

  /**
   * Reading back the text form of an entry gives the entry, as long as the
   * name holds no ':' and has no whitespace at its ends.
   */
  lemma ParseRender(e: Entry)
    requires ':' !in e.name && Unpadded(e.name)
    ensures ParseLine(Render(e)) == Ok(e)
  {
    RenderStripBare(e);
    RenderSplit(e);
    ParseLineFields(Render(e), e);
  }

  /** The same holds for a file line: the text form followed by its newline. */
  lemma ParseRenderLine(e: Entry)
    requires ':' !in e.name && Unpadded(e.name)
    ensures ParseLine(Render(e) + "\n") == Ok(e)
  {
    RenderStripNewline(e);
    RenderSplit(e);
    ParseLineFields(Render(e) + "\n", e);
  }

  /** A line whose stripped text splits into an entry's decimal id and its stripped name reads as that entry. */
  lemma ParseLineFields(line: string, e: Entry)
    requires Split(Strip(line), ':') == [Decimal(e.id), e.name]
    requires Unpadded(e.name)
    ensures ParseLine(line) == Ok(e)
  {
    ParseDecimal(e.id);
    StripUnpadded(e.name);
  }

  /** A blank line, the empty line included, is refused: it has a single field. */
  lemma BlankLineRefused(line: string)
    requires forall i :: 0 <= i < |line| ==> IsSpace(line[i])
    ensures ParseLine(line) == Err(WrongFieldCount(1))
  {
    assert Strip(line) == [];
  }

  /** The parse of every line of the file, in file order. */
  function ParsedLines(lines: seq<string>): (parsed: seq<Result<Entry, LineError>>)
    ensures |parsed| == |lines|
  {
    seq(|lines|, i requires 0 <= i < |lines| => ParseLine(lines[i]))
  }

  /** Parsed lines gathered in file order: every entry, or the first line refused. */
  function Collect(parsed: seq<Result<Entry, LineError>>): Result<seq<Entry>, LoadError>
    decreases |parsed|
  {
    if parsed == [] then Ok([])
    else match Collect(parsed[..|parsed| - 1])
      case Err(e) => Err(e)
      case Ok(entries) =>
        match parsed[|parsed| - 1]
        case Err(reason) => Err(LoadError(|parsed| - 1, reason))
        case Ok(e) => Ok(entries + [e])
  }

  /** Gathering one more accepted line appends its entry; one more refused line fails there. */
  lemma CollectStep(parsed: seq<Result<Entry, LineError>>, i: nat, entries: seq<Entry>)
    requires i < |parsed| && Collect(parsed[..i]) == Ok(entries)
    ensures parsed[i].Ok? ==> Collect(parsed[..i + 1]) == Ok(entries + [parsed[i].value])
    ensures parsed[i].Err? ==> Collect(parsed[..i + 1]) == Err(LoadError(i, parsed[i].error))
  {
    var p := parsed[..i + 1];
    assert p[..|p| - 1] == parsed[..i];
  }

  /** Once a prefix fails, the whole fails the same way. */
  lemma {:induction false} CollectErrExtends(parsed: seq<Result<Entry, LineError>>, k: nat)
    requires k <= |parsed| && Collect(parsed[..k]).Err?
    ensures Collect(parsed) == Collect(parsed[..k])
    decreases |parsed|
  {
    if k == |parsed| {
      assert parsed[..k] == parsed;
    } else {
      var init := parsed[..|parsed| - 1];
      assert init[..k] == parsed[..k];
      CollectErrExtends(init, k);
    }
  }

  /** Gathering succeeds with the value of every line, in order. */
  lemma {:induction false} CollectOk(parsed: seq<Result<Entry, LineError>>)
    requires Collect(parsed).Ok?
    ensures |Collect(parsed).value| == |parsed|
    ensures forall i :: 0 <= i < |parsed| ==> parsed[i] == Ok(Collect(parsed).value[i])
    decreases |parsed|
  {
    if parsed != [] {
      var init := parsed[..|parsed| - 1];
      CollectOk(init);
      forall i | 0 <= i < |parsed| ensures parsed[i] == Ok(Collect(parsed).value[i]) {
        if i < |init| { assert parsed[i] == init[i]; }
      }
    }
  }

  /** Gathering fails at a refused line, and every line before it was accepted. */
  lemma {:induction false} CollectErr(parsed: seq<Result<Entry, LineError>>)
    requires Collect(parsed).Err?
    ensures var e := Collect(parsed).error;
      && e.line < |parsed|
      && parsed[e.line] == Err(e.reason)
      && forall i :: 0 <= i < e.line ==> parsed[i].Ok?
    decreases |parsed|
  {
    var init := parsed[..|parsed| - 1];
    if Collect(init).Err? {
      CollectErr(init);
      var e := Collect(init).error;
      assert parsed[e.line] == init[e.line];
      forall i | 0 <= i < e.line ensures parsed[i].Ok? {
        assert parsed[i] == init[i];
      }
    } else {
      CollectOk(init);
      forall i | 0 <= i < |init| ensures parsed[i].Ok? {
        assert parsed[i] == init[i];
      }
    }
  }

  /** The result of `load_label_dict`: the dictionary of all entries, or the first line refused. */
  function LabelFile(lines: seq<string>): Result<LabelDict, LoadError> {
    match Collect(ParsedLines(lines))
    case Ok(entries) => Ok(Fill(entries))
    case Err(e) => Err(e)
  }

  /**
   * Loading succeeds exactly when every line is accepted, and the dictionary
   * then holds the entries of the lines in file order.
   */
  lemma LabelFileOk(lines: seq<string>)
    ensures LabelFile(lines).Ok? <==> forall i :: 0 <= i < |lines| ==> ParseLine(lines[i]).Ok?
    ensures LabelFile(lines).Ok? ==>
      var entries := Collect(ParsedLines(lines)).value;
      && LabelFile(lines).value == Fill(entries)
      && |entries| == |lines|
      && forall i :: 0 <= i < |lines| ==> ParseLine(lines[i]) == Ok(entries[i])
  {
    var parsed := ParsedLines(lines);
    if Collect(parsed).Ok? {
      CollectOk(parsed);
      forall i | 0 <= i < |lines| ensures ParseLine(lines[i]) == Ok(Collect(parsed).value[i]) {
        assert parsed[i] == ParseLine(lines[i]);
      }
    } else {
      CollectErr(parsed);
      var e := Collect(parsed).error;
      assert parsed[e.line] == ParseLine(lines[e.line]);
    }
  }

  /** Loading fails at the first refused line: that line is refused and every line before it was accepted. */
  lemma LabelFileErr(lines: seq<string>)
    requires LabelFile(lines).Err?
    ensures var e := LabelFile(lines).error;
      && e.line < |lines|
      && ParseLine(lines[e.line]) == Err(e.reason)
      && forall i :: 0 <= i < e.line ==> ParseLine(lines[i]).Ok?
  {
    var parsed := ParsedLines(lines);
    CollectErr(parsed);
    var e := Collect(parsed).error;
    assert parsed[e.line] == ParseLine(lines[e.line]);
    forall i | 0 <= i < e.line ensures ParseLine(lines[i]).Ok? {
      assert parsed[i] == ParseLine(lines[i]);
    }
  }

  /** The dictionary built from the entries, filled in file order. */
  function Fill(entries: seq<Entry>): LabelDict
    decreases |entries|
  {
    if entries == [] then map[]
    else
      var e := entries[|entries| - 1];
      Fill(entries[..|entries| - 1])[e.id := e.name]
  }

  /** One more entry sets its id to its name, overwriting any earlier one. */
  lemma FillStep(entries: seq<Entry>, e: Entry)
    ensures Fill(entries + [e]) == Fill(entries)[e.id := e.name]
  {
    assert (entries + [e])[..|entries|] == entries;
  }

  /** The dictionary's keys are exactly the ids of the entries. */
  lemma {:induction false} FillKeys(entries: seq<Entry>)
    ensures Fill(entries).Keys == set e | e in entries :: e.id
    decreases |entries|
  {
    if entries != [] {
      var init, last := entries[..|entries| - 1], entries[|entries| - 1];
      FillKeys(init);
      assert entries == init + [last];
      assert (set e | e in entries :: e.id) == (set e | e in init :: e.id) + {last.id};
    }
  }

  /** For an id on several entries the last of them wins. */
  lemma {:induction false} FillLastWins(entries: seq<Entry>, i: nat)
    requires i < |entries|
    requires forall j :: i < j < |entries| ==> entries[j].id != entries[i].id
    ensures entries[i].id in Fill(entries) && Fill(entries)[entries[i].id] == entries[i].name
    decreases |entries|
  {
    var init := entries[..|entries| - 1];
    if i < |entries| - 1 {
      assert init[i] == entries[i];
      forall j | i < j < |init| ensures init[j].id != init[i].id {
        assert init[j] == entries[j];
      }
      FillLastWins(init, i);
    }
  }

  /**
   * `load_label_dict` over the lines of the file: the dictionary is filled
   * line by line, a later line for an id overwriting an earlier one, and the
   * first refused line ends the load.
   */
  method LoadLabelDict(lines: seq<string>) returns (r: Result<LabelDict, LoadError>)
    ensures r == LabelFile(lines)
  {
    ghost var parsed := ParsedLines(lines);
    var labelDict: LabelDict := map[];
    ghost var entries: seq<Entry> := [];
    for i := 0 to |lines|
      invariant Collect(parsed[..i]) == Ok(entries)
      invariant labelDict == Fill(entries)
    {
      var result := ParseLine(lines[i]);
      assert parsed[i] == result;
      CollectStep(parsed, i, entries);
      if result.Err? {
        CollectErrExtends(parsed, i + 1);
        return Err(LoadError(i, result.error));
      }
      FillStep(entries, result.value);
      labelDict := labelDict[result.value.id := result.value.name];
      entries := entries + [result.value];
    }
    assert parsed[..|lines|] == parsed;
    assert Collect(parsed) == Ok(entries);
    return Ok(labelDict);
  }

  /** `label_dict.get(id, 'unknown')`. */
  function Lookup(labels: LabelDict, id: int): string {
    if id in labels then labels[id] else "unknown"
  }

  /**
   * The fallback is only a fallback: a lookup gives a given name other than
   * "unknown" exactly when the dictionary maps the id to it.
   */
  lemma LookupNamed(labels: LabelDict, id: int, name: string)
    requires name != "unknown"
    ensures Lookup(labels, id) == name <==> id in labels && labels[id] == name
  {
  }
}
