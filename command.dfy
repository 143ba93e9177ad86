/** Step 2 of `processAlgorithm` (SagaAlgorithm.py:209-311): the SAGA command line, the matrix
    table files, the outputs, the `RGB Composite` follow-up command, the projection sidecars and
    the result dictionary; and `getOutputCellsize` (SagaAlgorithm.py:334-345). */
module Command {
  import opened Wrappers
  import opened Types
  import opened Text
  import opened Export
  import opened Declaration

  /** `group "cmdname" hardcoded...` (lines 210-211). */
  function CommandHeader(group: string, cmdName: string, hardcoded: seq<string>): string {
    group + " \"" + cmdName + "\"" + " " + Join(' ', hardcoded)
  }

  // ---- getOutputCellsize ----

  /** The guessed output cell size: the value of a definition named `USER_SIZE` that is a key of
      `parameters`, else 0. */
  function GuessedCellSize(defs: seq<Param>, values: map<string, Value>, fw: Framework): real {
    if "USER_SIZE" in values && exists i :: 0 <= i < |defs| && defs[i].name == "USER_SIZE"
    then fw.asDouble(values["USER_SIZE"]) else 0.0
  }

  // ---- Matrix parameters (lines 233-240) ----

  /** The rows written for the flattened matrix values: three values per row, tab-separated;
      None when a row would be incomplete (the IndexError at line 238). */
  function MatrixRows(values: seq<string>): Option<string>
    decreases |values|
  {
    if values == [] then Some("")
    else if |values| < 3 then None
    else match MatrixRows(values[3..])
      case None => None
      case Some(rest) => Some(values[0] + "\t" + values[1] + "\t" + values[2] + "\n" + rest)
  }

  /** The table file text: the headers joined by tab, a newline, then the rows. */
  function MatrixTable(headers: seq<string>, values: seq<string>): Option<string> {
    match MatrixRows(values)
    case None => None
    case Some(rows) => Some(Join('\t', headers) + "\n" + rows)
  }

  /** The table can be written exactly when the number of values is a multiple of three. */
  lemma {:induction false} MatrixTableDefined(headers: seq<string>, values: seq<string>)
    ensures MatrixTable(headers, values).Some? <==> |values| % 3 == 0
    decreases |values|
  {
    MatrixRowsDefined(values);
  }

  lemma {:induction false} MatrixRowsDefined(values: seq<string>)
    ensures MatrixRows(values).Some? <==> |values| % 3 == 0
    decreases |values|
  {
    if |values| >= 3 {
      MatrixRowsDefined(values[3..]);
    }
  }

  /** The rows of a matrix value: consecutive triples. */
  function Triples(values: seq<string>): seq<seq<string>>
    decreases |values|
  {
    if |values| < 3 then [] else [values[..3]] + Triples(values[3..])
  }

  /** Reading a table file back: its lines, each cut at tabs, without the empty text after the
      final newline. */
  function ReadTable(text: string): seq<seq<string>> {
    var lines := Split(text, '\n');
    CellsOf(lines[..|lines| - 1])
  }

  predicate Clean(cell: string) {
    '\t' !in cell && '\n' !in cell
  }

  /** Each line of `lines` followed by a newline. */
  function Lines(lines: seq<string>): string {
    if lines == [] then "" else lines[0] + "\n" + Lines(lines[1..])
  }

  lemma {:induction false} LinesAsJoin(lines: seq<string>)
    ensures Lines(lines) == Join('\n', lines + [""])
  {
    if lines != [] {
      LinesAsJoin(lines[1..]);
      assert (lines + [""])[1..] == lines[1..] + [""];
      assert (lines + [""])[0] == lines[0];
    }
  }

  function RowLines(values: seq<string>): seq<string>
    decreases |values|
  {
    if |values| < 3 then [] else [Join('\t', values[..3])] + RowLines(values[3..])
  }

  lemma {:induction false} MatrixRowsAsLines(values: seq<string>)
    requires |values| % 3 == 0
    ensures MatrixRows(values) == Some(Lines(RowLines(values)))
    decreases |values|
  {
    if values != [] {
      MatrixRowsAsLines(values[3..]);
      var t := values[..3];
      assert t[1..][1..] == t[2..] == [values[2]];
      assert Join('\t', t[2..]) == values[2];
      assert Join('\t', t[1..]) == values[1] + "\t" + values[2];
      assert Join('\t', t) == values[0] + "\t" + values[1] + "\t" + values[2];
      var rows := [Join('\t', t)] + RowLines(values[3..]);
      assert RowLines(values) == rows;
      assert rows[1..] == RowLines(values[3..]);
      assert Lines(rows) == Join('\t', t) + "\n" + Lines(RowLines(values[3..]));
    }
  }

  /** The table file's lines: the header line, then one line per row. */
  function TableLines(headers: seq<string>, values: seq<string>): seq<string> {
    [Join('\t', headers)] + RowLines(values)
  }

  lemma TableSplit(headers: seq<string>, values: seq<string>)
    requires |values| % 3 == 0
    requires forall i :: 0 <= i < |headers| ==> Clean(headers[i])
    requires forall i :: 0 <= i < |values| ==> Clean(values[i])
    ensures MatrixTable(headers, values).Some?
    ensures Split(MatrixTable(headers, values).value, '\n') == TableLines(headers, values) + [""]
  {
    MatrixRowsAsLines(values);
    var lines := TableLines(headers, values);
    assert MatrixTable(headers, values).value == Lines(lines);
    LinesAsJoin(lines);
    JoinClean(headers, '\t', '\n');
    RowLinesClean(values);
    SplitJoin(lines + [""], '\n');
  }

  /** Reading the table file back gives the headers and the rows of three values, provided no
      header or value contains a tab or a newline. */
  lemma MatrixRoundTrip(headers: seq<string>, values: seq<string>)
    requires |headers| >= 1 && |values| % 3 == 0
    requires forall i :: 0 <= i < |headers| ==> Clean(headers[i])
    requires forall i :: 0 <= i < |values| ==> Clean(values[i])
    ensures MatrixTable(headers, values).Some?
    ensures ReadTable(MatrixTable(headers, values).value) == [headers] + Triples(values)
  {
    TableSplit(headers, values);
    ReadLines(MatrixTable(headers, values).value, TableLines(headers, values));
    CellsOfLines(headers, values);
  }

  /** Each line cut at tabs. */
  function CellsOf(lines: seq<string>): seq<seq<string>> {
    if lines == [] then [] else [Split(lines[0], '\t')] + CellsOf(lines[1..])
  }

  lemma ReadLines(text: string, lines: seq<string>)
    requires Split(text, '\n') == lines + [""]
    ensures ReadTable(text) == CellsOf(lines)
  {
    assert (lines + [""])[..|lines|] == lines;
  }

  lemma CellsOfLines(headers: seq<string>, values: seq<string>)
    requires forall i :: 0 <= i < |headers| ==> Clean(headers[i])
    requires forall i :: 0 <= i < |values| ==> Clean(values[i])
    requires |headers| >= 1
    ensures CellsOf(TableLines(headers, values)) == [headers] + Triples(values)
  {
    SplitJoin(headers, '\t');
    RowLinesRead(values);
    assert TableLines(headers, values)[1..] == RowLines(values);
  }

  lemma {:induction false} JoinClean(xs: seq<string>, sep: char, c: char)
    requires c != sep
    requires forall i :: 0 <= i < |xs| ==> c !in xs[i]
    ensures c !in Join(sep, xs)
  {
    if |xs| > 1 {
      JoinClean(xs[1..], sep, c);
    }
  }

  lemma {:induction false} RowLinesClean(values: seq<string>)
    requires forall i :: 0 <= i < |values| ==> Clean(values[i])
    ensures forall i :: 0 <= i < |RowLines(values)| ==> '\n' !in RowLines(values)[i]
    decreases |values|
  {
    if |values| >= 3 {
      RowLinesClean(values[3..]);
      JoinClean(values[..3], '\t', '\n');
    }
  }

  lemma {:induction false} RowLinesRead(values: seq<string>)
    requires forall i :: 0 <= i < |values| ==> Clean(values[i])
    ensures CellsOf(RowLines(values)) == Triples(values)
    decreases |values|
  {
    if |values| >= 3 {
      RowLinesRead(values[3..]);
      SplitJoin(values[..3], '\t');
      assert RowLines(values)[1..] == RowLines(values[3..]);
    }
  }

  /** The example of a three-column table with six values. */
  lemma MatrixExample()
    ensures MatrixTable(["A", "B", "C"], ["1", "2", "3", "4", "5", "6"]) == Some("A\tB\tC\n1\t2\t3\n4\t5\t6\n")
  {
    var vs := ["1", "2", "3", "4", "5", "6"];
    assert vs[3..] == ["4", "5", "6"];
    assert vs[3..][3..] == [];
    assert MatrixRows(vs[3..][3..]) == Some("");
    assert vs[3..][0] == "4" && vs[3..][1] == "5" && vs[3..][2] == "6";
    assert "4" + "\t" + "5" + "\t" + "6" + "\n" + "" == "4\t5\t6\n";
    assert MatrixRows(vs[3..]) == Some("4\t5\t6\n");
    assert "1" + "\t" + "2" + "\t" + "3" + "\n" + "4\t5\t6\n" == "1\t2\t3\n4\t5\t6\n";
    assert MatrixRows(vs) == Some("1\t2\t3\n4\t5\t6\n");
    assert "A\tB\tC" + "\n" + "1\t2\t3\n4\t5\t6\n" == "A\tB\tC\n1\t2\t3\n4\t5\t6\n";
    var hs := ["A", "B", "C"];
    assert hs[1..] == ["B", "C"] && hs[1..][1..] == ["C"];
    assert Join('\t', hs[1..][1..]) == "C";
    assert Join('\t', hs[1..]) == "B\tC";
    assert Join('\t', hs) == "A\tB\tC";
  }

  // ---- Extent parameters (lines 241-256) ----

  /** The four values passed to SAGA: the corners moved by half a cell toward the cell centres. */
  function ExtentValues(r: Rect, cellsize: real): seq<real> {
    var h := cellsize / 2.0;
    [r.xMin + h, r.yMin - h, r.xMax + h, r.yMax - h]
  }

  /** The first `k` of the four `-name value` flags. */
  function ExtentFlags(names: seq<string>, vals: seq<real>, k: nat, fw: Framework): string
    requires k <= 4 <= |names| && |vals| == 4
  {
    if k == 0 then "" else ExtentFlags(names, vals, k - 1, fw) + " -" + names[k - 1] + " " + fw.realText(vals[k - 1])
  }

  /** The four flags use the declared names in order, with xmin+h, ymin-h, xmax+h, ymax-h for
      h = cellsize/2; the box keeps its width and height, and a cell size of 0 leaves the corners
      as they are. */
  lemma ExtentOffset(names: seq<string>, r: Rect, cellsize: real, fw: Framework)
    requires |names| >= 4
    ensures var v := ExtentValues(r, cellsize);
      ExtentFlags(names, v, 4, fw) ==
        " -" + names[0] + " " + fw.realText(r.xMin + cellsize / 2.0) + " -" + names[1] + " " + fw.realText(r.yMin - cellsize / 2.0)
        + " -" + names[2] + " " + fw.realText(r.xMax + cellsize / 2.0) + " -" + names[3] + " " + fw.realText(r.yMax - cellsize / 2.0)
      && v[2] - v[0] == r.xMax - r.xMin && v[3] - v[1] == r.yMax - r.yMin
      && (cellsize == 0.0 ==> v == [r.xMin, r.yMin, r.xMax, r.yMax])
  {
    var v := ExtentValues(r, cellsize);
    assert ExtentFlags(names, v, 1, fw) == " -" + names[0] + " " + fw.realText(v[0]);
    assert ExtentFlags(names, v, 2, fw) == ExtentFlags(names, v, 1, fw) + " -" + names[1] + " " + fw.realText(v[1]);
    assert ExtentFlags(names, v, 3, fw) == ExtentFlags(names, v, 2, fw) + " -" + names[2] + " " + fw.realText(v[2]);
    assert ExtentFlags(names, v, 4, fw) == ExtentFlags(names, v, 3, fw) + " -" + names[3] + " " + fw.realText(v[3]);
  }

  // ---- One parameter (lines 213-264) ----

  /** What one parameter adds to the command, and the table file it writes. */
  datatype Piece = Piece(text: string, tables: seq<FileWrite>)

  /** `sep.join(s)` on a string joins its characters. */
  function Chars(s: string): seq<string> {
    seq(|s|, i requires 0 <= i < |s| => [s[i]])
  }

  /** Lines 223-225: each key of `exportedLayers`, in insertion order, replaced in the value by
      its entry. A list entry raises TypeError; a value that is not a string raises as soon as
      there is a key to replace. */
  function ReplaceKeys(v: Value, keys: seq<string>, entries: map<string, Exported>, name: string): Result<Value>
    decreases |keys|
  {
    if keys == [] then Ok(v)
    else match v
      case PyStr(s) =>
        if keys[0] !in entries then Err(MissingKey(keys[0]))
        else (match entries[keys[0]]
          case Single(path) => ReplaceKeys(PyStr(Replace(s, keys[0], path)), keys[1..], entries, name)
          case Many(_) => Err(NotText))
      case _ => Err(NotAString(name))
  }

  function Quoted(s: string): string {
    " \"" + s + "\""
  }

  function Fragment(p: Param, values: map<string, Value>, run: Exports, extentNames: Option<seq<string>>,
                    cellsize: real, fw: Framework): Result<Piece>
  {
    if !Supplied(values, p.name) || p.IsDestination() then Ok(Piece("", []))
    else
      var v := values[p.name];
      match p.kind
      case RasterLayer =>
        LayerFragment(p.name, run)
      case FeatureSource =>
        LayerFragment(p.name, run)
      case MultipleLayers(_) =>
        (match ReplaceKeys(v, run.keys, run.entries, p.name)
         case Err(e) => Err(e)
         case Ok(s) =>
           if p.name !in run.entries then Err(MissingKey(p.name))
           else
             var flag := match run.entries[p.name] case Single(path) => Join(';', Chars(path)) case Many(ps) => Join(';', ps);
             (match s
              case PyStr(t) => Ok(Piece(" -" + flag + Quoted(t), []))
              case _ => Err(NotText)))
      case Boolean =>
        Ok(Piece(" -" + Strip(p.name) + (if fw.asBool(v) then " true" else " false"), []))
      case Matrix(headers) =>
        var file := fw.tableFile(p.name);
        (match MatrixTable(headers, fw.asMatrix(v))
         case None => Err(IncompleteMatrixRow(p.name))
         case Some(text) => Ok(Piece(" -" + p.name + Quoted(file), [FileWrite(file, text)])))
      case Extent =>
        (match extentNames
         case None => Err(NoExtentNames)
         case Some(names) =>
           if |names| < 4 then Err(NoExtentNames)
           else Ok(Piece(ExtentFlags(names, ExtentValues(fw.asExtent(v), cellsize), 4, fw), [])))
      case Number =>
        Ok(Piece(" -" + p.name + " " + fw.realText(fw.asDouble(v)), []))
      case Enum =>
        Ok(Piece(" -" + p.name + " " + IntText(fw.asEnum(v)), []))
      case StringParam =>
        Ok(Piece(" -" + p.name + Quoted(fw.asFile(v)), []))
      case FileParam =>
        Ok(Piece(" -" + p.name + Quoted(fw.asFile(v)), []))
      case Field =>
        Ok(Piece(" -" + p.name + Quoted(fw.asString(v)), []))
      case _ => Ok(Piece("", []))
  }

  /** Lines 219-221: the entry of `exportedLayers` under the parameter's NAME. */
  function LayerFragment(name: string, run: Exports): Result<Piece> {
    if name !in run.entries then Err(MissingKey(name))
    else match run.entries[name]
      case Single(path) => Ok(Piece(" -" + name + Quoted(path), []))
      case Many(_) => Err(NotText)
  }

  /** Line 261 catches every string parameter, so it is resolved with `parameterAsFile`; the
      branch at line 263 is reached only by field parameters, resolved with `parameterAsString`. */
  lemma StringResolvedAsFile(p: Param, values: map<string, Value>, run: Exports, extentNames: Option<seq<string>>, cellsize: real, fw: Framework)
    requires Supplied(values, p.name) && (p.kind.StringParam? || p.kind.Field?)
    ensures Fragment(p, values, run, extentNames, cellsize, fw)
      == Ok(Piece(" -" + p.name + Quoted(if p.kind.StringParam? then fw.asFile(values[p.name]) else fw.asString(values[p.name])), []))
  {
  }

  /** Absent, None and destination parameters add nothing. */
  lemma UnsuppliedAddsNothing(p: Param, values: map<string, Value>, run: Exports, extentNames: Option<seq<string>>, cellsize: real, fw: Framework)
    requires !Supplied(values, p.name) || p.IsDestination()
    ensures Fragment(p, values, run, extentNames, cellsize, fw) == Ok(Piece("", []))
  {
  }

  /** The multi-layer branch succeeds only when `exportedLayers` holds a single path under the
      parameter's own name, and the flag is then that path's characters joined by ';' rather than
      the parameter's name (line 226). A vector multi-layer input, whose entry is a list, always
      fails. */
  lemma MultipleLayersFlag(p: Param, values: map<string, Value>, run: Exports, extentNames: Option<seq<string>>, cellsize: real, fw: Framework)
    requires p.kind.MultipleLayers? && Supplied(values, p.name) && ValidExports(run)
    requires Fragment(p, values, run, extentNames, cellsize, fw).Ok?
    ensures p.name in run.entries && run.entries[p.name].Single?
    ensures StartsWith(Fragment(p, values, run, extentNames, cellsize, fw).value.text, " -" + Join(';', Chars(run.entries[p.name].path)))
  {
    ReplaceKeysNoList(values[p.name], run.keys, run.entries, p.name);
  }

  lemma {:induction false} ReplaceKeysNoList(v: Value, keys: seq<string>, entries: map<string, Exported>, name: string)
    requires ReplaceKeys(v, keys, entries, name).Ok?
    ensures forall k :: k in keys && k in entries ==> entries[k].Single?
    decreases |keys|
  {
    if keys != [] {
      ReplaceKeysNoList(PyStr(Replace(v.s, keys[0], entries[keys[0]].path)), keys[1..], entries, name);
      forall k | k in keys && k in entries ensures entries[k].Single? {
        if k != keys[0] {
          assert k in keys[1..];
        }
      }
    }
  }

  // ---- All parameters ----

  /** The loop at line 213 over the remaining definitions, from the text built so far. */
  function AppendFragments(acc: Piece, defs: seq<Param>, values: map<string, Value>, run: Exports,
                           extentNames: Option<seq<string>>, cellsize: real, fw: Framework): Result<Piece>
    decreases |defs|
  {
    if defs == [] then Ok(acc)
    else match Fragment(defs[0], values, run, extentNames, cellsize, fw)
      case Err(e) => Err(e)
      case Ok(f) => AppendFragments(Piece(acc.text + f.text, acc.tables + f.tables), defs[1..], values, run, extentNames, cellsize, fw)
  }

  /** When the loop gets through, every definition's fragment was built without an exception. */
  lemma {:induction false} AppendFragmentsEach(acc: Piece, defs: seq<Param>, values: map<string, Value>, run: Exports,
                                               extentNames: Option<seq<string>>, cellsize: real, fw: Framework, i: nat)
    requires AppendFragments(acc, defs, values, run, extentNames, cellsize, fw).Ok?
    requires i < |defs|
    ensures Fragment(defs[i], values, run, extentNames, cellsize, fw).Ok?
    decreases |defs|
  {
    if i > 0 {
      var f := Fragment(defs[0], values, run, extentNames, cellsize, fw).value;
      AppendFragmentsEach(Piece(acc.text + f.text, acc.tables + f.tables), defs[1..], values, run, extentNames, cellsize, fw, i - 1);
      assert defs[1..][i - 1] == defs[i];
    }
  }

  /** The text, the layer files and the output files the loop at line 268 collects. */
  datatype Outputs = Outputs(text: string, layers: seq<string>, files: map<string, string>)

  function AppendDestinations(acc: Outputs, defs: seq<Param>, fw: Framework): Outputs
    decreases |defs|
  {
    if defs == [] then acc
    else
      var p := defs[0];
      if !p.IsDestination() then AppendDestinations(acc, defs[1..], fw)
      else
        var file := fw.outputLayer(p.name);
        AppendDestinations(Outputs(acc.text + " -" + p.name + Quoted(file),
                                   if p.IsLayerDestination() then acc.layers + [file] else acc.layers,
                                   acc.files[p.name := file]), defs[1..], fw)
  }

  /** The destination flags, in definition order. */
  function DestinationFlags(defs: seq<Param>, fw: Framework): string
    decreases |defs|
  {
    if defs == [] then ""
    else
      var flag := if defs[0].IsDestination() then " -" + defs[0].name + Quoted(fw.outputLayer(defs[0].name)) else "";
      flag + DestinationFlags(defs[1..], fw)
  }

  /** The main command, the matrix tables, and the outputs. */
  datatype Built = Built(command: string, tables: seq<FileWrite>, outputLayers: seq<string>, outputFiles: map<string, string>)

  function BuildCommand(d: Description, values: map<string, Value>, run: Exports, fw: Framework): Result<Built> {
    var cellsize := GuessedCellSize(d.params, values, fw);
    match AppendFragments(Piece(CommandHeader(d.group, d.cmdName, d.hardcoded), []), d.params, values, run, d.extentNames, cellsize, fw)
    case Err(e) => Err(e)
    case Ok(pc) =>
      var o := AppendDestinations(Outputs(pc.text, [], map[]), d.params, fw);
      Ok(Built(o.text, pc.tables, o.layers, o.files))
  }

  lemma {:induction false} AppendFragmentsPrefix(acc: Piece, defs: seq<Param>, values: map<string, Value>, run: Exports,
                                                 extentNames: Option<seq<string>>, cellsize: real, fw: Framework)
    requires AppendFragments(acc, defs, values, run, extentNames, cellsize, fw).Ok?
    ensures StartsWith(AppendFragments(acc, defs, values, run, extentNames, cellsize, fw).value.text, acc.text)
    decreases |defs|
  {
    if defs != [] {
      var f := Fragment(defs[0], values, run, extentNames, cellsize, fw).value;
      var acc' := Piece(acc.text + f.text, acc.tables + f.tables);
      AppendFragmentsPrefix(acc', defs[1..], values, run, extentNames, cellsize, fw);
      assert acc'.text[..|acc.text|] == acc.text;
    }
  }

  /** The names of the destinations among `defs`. */
  lemma DestinationNamesCons(defs: seq<Param>)
    requires defs != []
    ensures (set i | 0 <= i < |defs| && defs[i].IsDestination() :: defs[i].name)
      == (if defs[0].IsDestination() then {defs[0].name} else {}) + (set i | 0 <= i < |defs[1..]| && defs[1..][i].IsDestination() :: defs[1..][i].name)
  {
    var p := defs[0];
    var rest := set i | 0 <= i < |defs[1..]| && defs[1..][i].IsDestination() :: defs[1..][i].name;
    var all := set i | 0 <= i < |defs| && defs[i].IsDestination() :: defs[i].name;
    forall x | x in all ensures x in (if p.IsDestination() then {p.name} else {}) + rest {
      var i :| 0 <= i < |defs| && defs[i].IsDestination() && defs[i].name == x;
      if i > 0 {
        assert defs[1..][i - 1] == defs[i];
      }
    }
    forall x | x in rest ensures x in all {
      var i :| 0 <= i < |defs[1..]| && defs[1..][i].IsDestination() && defs[1..][i].name == x;
      assert defs[i + 1] == defs[1..][i];
    }
  }

  /** The destination loop appends exactly the destination flags to the command. */
  lemma {:induction false} AppendDestinationsText(acc: Outputs, defs: seq<Param>, fw: Framework)
    ensures AppendDestinations(acc, defs, fw).text == acc.text + DestinationFlags(defs, fw)
    decreases |defs|
  {
    if defs != [] {
      var p := defs[0];
      if p.IsDestination() {
        var file := fw.outputLayer(p.name);
        var acc' := Outputs(acc.text + " -" + p.name + Quoted(file), if p.IsLayerDestination() then acc.layers + [file] else acc.layers, acc.files[p.name := file]);
        AppendDestinationsText(acc', defs[1..], fw);
        assert acc.text + " -" + p.name + Quoted(file) + DestinationFlags(defs[1..], fw) == acc.text + (" -" + p.name + Quoted(file) + DestinationFlags(defs[1..], fw));
      } else {
        AppendDestinationsText(acc, defs[1..], fw);
        assert DestinationFlags(defs, fw) == "" + DestinationFlags(defs[1..], fw);
      }
    }
  }

  /** The destination loop adds one output file per destination name. */
  lemma {:induction false} AppendDestinationsKeys(acc: Outputs, defs: seq<Param>, fw: Framework)
    ensures AppendDestinations(acc, defs, fw).files.Keys == acc.files.Keys + (set i | 0 <= i < |defs| && defs[i].IsDestination() :: defs[i].name)
    decreases |defs|
  {
    if defs != [] {
      var p := defs[0];
      var acc' := if !p.IsDestination() then acc else
        var file := fw.outputLayer(p.name);
        Outputs(acc.text + " -" + p.name + Quoted(file), if p.IsLayerDestination() then acc.layers + [file] else acc.layers, acc.files[p.name := file]);
      AppendDestinationsKeys(acc', defs[1..], fw);
      DestinationNamesCons(defs);
    }
  }

  /** The command starts with `group "cmdname" hardcoded...`, ends with one ` -NAME "file"` per
      destination in definition order, and the output files are keyed by exactly the destination
      names. */
  lemma CommandShape(d: Description, values: map<string, Value>, run: Exports, fw: Framework)
    requires BuildCommand(d, values, run, fw).Ok?
    ensures var b := BuildCommand(d, values, run, fw).value;
      StartsWith(b.command, CommandHeader(d.group, d.cmdName, d.hardcoded))
      && EndsWith(b.command, DestinationFlags(d.params, fw))
      && b.outputFiles.Keys == (set i | 0 <= i < |d.params| && d.params[i].IsDestination() :: d.params[i].name)
  {
    var cellsize := GuessedCellSize(d.params, values, fw);
    var head := Piece(CommandHeader(d.group, d.cmdName, d.hardcoded), []);
    AppendFragmentsPrefix(head, d.params, values, run, d.extentNames, cellsize, fw);
    var pc := AppendFragments(head, d.params, values, run, d.extentNames, cellsize, fw).value;
    AppendDestinationsText(Outputs(pc.text, [], map[]), d.params, fw);
    AppendDestinationsKeys(Outputs(pc.text, [], map[]), d.params, fw);
    var b := BuildCommand(d, values, run, fw).value;
    assert b.command == pc.text + DestinationFlags(d.params, fw);
    assert b.command[..|pc.text|] == pc.text;
    assert b.command[..|head.text|] == pc.text[..|head.text|];
  }

  /** The export step of a raster input given as a path other than its own name leaves no
      entry under the parameter's name. */
  lemma RasterInputNotRecorded(p: Param, st: ExportState, fw: Framework, onDisk: set<string>)
    requires p.kind == RasterLayer && p.name in st.values && st.values[p.name].PyStr?
    requires st.values[p.name].s != p.name && p.name !in st.run.entries
    ensures var o := ExportParam(p, st, fw, onDisk);
      o.failure == None && Supplied(o.st.values, p.name) && p.name !in o.st.run.entries
  {
    var s := st.values[p.name].s;
    assert ExportParam(p, st, fw, onDisk) == Outcome(ExportRasterInput(st, p.name, s, fw, onDisk), None);
    if !EndsWith(s, "sdat") && !EndsWith(s, "sgrd") {
      var e := ExportRaster(st.run, st.session, s, fw, onDisk);
      assert e.run.entries.Keys == st.run.entries.Keys + {s};
    }
  }

  /** A raster input without an entry under its name raises KeyError at line 221. */
  lemma RasterFragmentMissing(p: Param, values: map<string, Value>, run: Exports, extentNames: Option<seq<string>>, cellsize: real, fw: Framework)
    requires p.kind == RasterLayer && Supplied(values, p.name) && p.name !in run.entries
    ensures Fragment(p, values, run, extentNames, cellsize, fw) == Err(MissingKey(p.name))
  {
    assert Fragment(p, values, run, extentNames, cellsize, fw) == LayerFragment(p.name, run);
  }

  /** A raster input whose own path is not the parameter's name leaves no entry under that
      name: after its export step the command builder raises KeyError at line 221, whether the
      file was `.sgrd`, `.sdat` or converted. */
  lemma RasterInputLookupFails(p: Param, st: ExportState, fw: Framework, onDisk: set<string>,
                               extentNames: Option<seq<string>>, cellsize: real)
    requires p.kind == RasterLayer && p.name in st.values && st.values[p.name].PyStr?
    requires st.values[p.name].s != p.name && p.name !in st.run.entries
    ensures var o := ExportParam(p, st, fw, onDisk);
      o.failure == None
      && Fragment(p, o.st.values, o.st.run, extentNames, cellsize, fw) == Err(MissingKey(p.name))
  {
    RasterInputNotRecorded(p, st, fw, onDisk);
    var o := ExportParam(p, st, fw, onDisk);
    RasterFragmentMissing(p, o.st.values, o.st.run, extentNames, cellsize, fw);
  }

  // ---- The RGB Composite follow-up (lines 279-287) ----

  const RgbComposite: string := "RGB Composite"

  function RgbCommand(filename: string): string {
    "io_grid_image 0 -IS_RGB -GRID:\"" + filename + ".sgrd" + "\" -FILE:\"" + filename + "\""
  }

  /** `c` is the follow-up command of some raster destination among `defs`. */
  predicate RgbOfSome(defs: seq<Param>, c: string, fw: Framework) {
    exists i :: 0 <= i < |defs| && defs[i].kind == RasterDestination && c == RgbCommand(fw.compatibleFileName(defs[i].name))
  }

  /** One follow-up per raster destination, in definition order, when the command is `RGB Composite`. */
  function RgbCommands(defs: seq<Param>, cmdName: string, fw: Framework): (r: seq<string>)
    decreases |defs|
  {
    if defs == [] then []
    else
      (if defs[0].kind == RasterDestination && cmdName == RgbComposite then [RgbCommand(fw.compatibleFileName(defs[0].name))] else [])
      + RgbCommands(defs[1..], cmdName, fw)
  }

  lemma RgbCommandsStep(defs: seq<Param>, i: nat, cmdName: string, fw: Framework)
    requires i < |defs|
    ensures RgbCommands(defs[i..], cmdName, fw) ==
      (if defs[i].kind == RasterDestination && cmdName == RgbComposite then [RgbCommand(fw.compatibleFileName(defs[i].name))] else [])
      + RgbCommands(defs[i + 1..], cmdName, fw)
  {
    assert defs[i..][0] == defs[i] && defs[i..][1..] == defs[i + 1..];
  }

  /** Only `RGB Composite` gets follow-ups, and at most one per definition. */
  lemma {:induction false} RgbCommandsBound(defs: seq<Param>, cmdName: string, fw: Framework)
    ensures cmdName != RgbComposite ==> RgbCommands(defs, cmdName, fw) == []
    ensures |RgbCommands(defs, cmdName, fw)| <= |defs|
    decreases |defs|
  {
    if defs != [] {
      RgbCommandsBound(defs[1..], cmdName, fw);
    }
  }

  /** Each follow-up is the `io_grid_image` command of some raster destination among `defs`. */
  lemma {:induction false} RgbCommandsFromDestinations(defs: seq<Param>, cmdName: string, fw: Framework)
    ensures forall k :: 0 <= k < |RgbCommands(defs, cmdName, fw)| ==> RgbOfSome(defs, RgbCommands(defs, cmdName, fw)[k], fw)
    decreases |defs|
  {
    if defs != [] {
      var rest := RgbCommands(defs[1..], cmdName, fw);
      RgbCommandsFromDestinations(defs[1..], cmdName, fw);
      forall k | 0 <= k < |rest| ensures RgbOfSome(defs, rest[k], fw) {
        assert RgbOfSome(defs[1..], rest[k], fw);
        var j :| 0 <= j < |defs[1..]| && defs[1..][j].kind == RasterDestination && rest[k] == RgbCommand(fw.compatibleFileName(defs[1..][j].name));
        assert defs[j + 1] == defs[1..][j];
      }
      var r := RgbCommands(defs, cmdName, fw);
      forall k | 0 <= k < |r| ensures RgbOfSome(defs, r[k], fw) {
        if defs[0].kind == RasterDestination && cmdName == RgbComposite {
          if k > 0 {
            assert r[k] == rest[k - 1];
          } else {
            assert r[0] == RgbCommand(fw.compatibleFileName(defs[0].name));
          }
        } else {
          assert r[k] == rest[k];
        }
      }
    }
  }

  // ---- Projection sidecars (lines 301-305) and the result (lines 307-311) ----

  /** One `.prj` file per layer output, next to it, holding the captured crs; none without a crs. */
  function PrjWrites(layers: seq<string>, crs: Option<string>): (r: seq<FileWrite>)
    ensures |r| == if crs.Some? then |layers| else 0
    ensures forall i :: 0 <= i < |r| ==> r[i].path == StemPath(layers[i]) + ".prj" && r[i].text == crs.value
  {
    match crs
    case None => []
    case Some(wkt) => seq(|layers|, i requires 0 <= i < |layers| => FileWrite(StemPath(layers[i]) + ".prj", wkt))
  }

  /** The result dictionary: the declared outputs that have an output file, mapped to it. */
  method MapResults(outputNames: seq<string>, outputFiles: map<string, string>) returns (result: map<string, string>)
    ensures result.Keys == (set o | o in outputNames && o in outputFiles)
    ensures forall o :: o in result ==> result[o] == outputFiles[o]
  {
    result := map[];
    for i := 0 to |outputNames|
      invariant result.Keys == (set o | o in outputNames[..i] && o in outputFiles)
      invariant forall o :: o in result ==> o in outputFiles && result[o] == outputFiles[o]
    {
      var o := outputNames[i];
      assert outputNames[..i + 1] == outputNames[..i] + [o];
      if o in outputFiles {
        result := result[o := outputFiles[o]];
      }
    }
    assert outputNames[..|outputNames|] == outputNames;
  }
}
