/** The `SagaAlgorithm` object (SagaAlgorithm.py:63-398) and the module-global cache of exported
    rasters (SagaAlgorithm.py:60), as classes whose methods update their fields in place. Each
    method is proved against the specification functions of the Declaration, Export, Command and
    Validation modules. */
module Algorithm {
  import opened Wrappers
  import opened Types
  import opened Text
  import opened Declaration
  import opened Export
  import opened Command
  import opened Validation

  /** What a successful run produces: the commands handed to SAGA (after the `editCommands`
      hook), the files written (matrix tables, then `.prj` sidecars), and the result dictionary. */
  datatype RunResult = RunResult(commands: seq<string>, writes: seq<FileWrite>, result: map<string, string>)

  /** A run's outcome together with the state it leaves behind, which lasts past a failed run. */
  datatype Processed = Processed(result: Result<RunResult>, run: Exports, session: map<string, string>, attrs: map<string, string>)

  /** The result dictionary: each declared output that has an output file, mapped to that file. */
  function ResultMap(outputNames: seq<string>, outputFiles: map<string, string>): map<string, string> {
    map o | o in outputNames && o in outputFiles :: outputFiles[o]
  }

  /** `processAlgorithm` (lines 140-311) as a function of the description, the parameters, the
      session cache, the definitions' `value` attributes and the files that exist. */
  function Process(d: Description, values: map<string, Value>, session: map<string, string>, attrs: map<string, string>,
                   fw: Framework, onDisk: set<string>): Processed
  {
    var o := ExportFrom(Outcome(ExportState(values, EmptyExports, session, attrs, [], None), None), d.params, fw, onDisk);
    var st := o.st;
    if o.failure.Some? then Processed(Err(o.failure.value), st.run, st.session, st.attrs)
    else match BuildCommand(d, st.values, st.run, fw)
      case Err(e) => Processed(Err(e), st.run, st.session, st.attrs)
      case Ok(b) =>
        var commands := fw.editCommands(st.commands + [b.command] + RgbCommands(d.params, d.cmdName, fw));
        Processed(Ok(RunResult(commands, b.tables + PrjWrites(b.outputLayers, st.crs), ResultMap(fw.outputNames, b.outputFiles))),
                  st.run, st.session, st.attrs)
  }

  /** Without an `editCommands` hook, a run hands SAGA its export commands, then the main command
      (which starts with the group, the quoted SAGA name and the hardcoded strings), then the
      `RGB Composite` follow-ups, which only that command has. */
  lemma RunCommands(d: Description, values: map<string, Value>, session: map<string, string>, attrs: map<string, string>,
                    fw: Framework, onDisk: set<string>)
    requires forall cs :: fw.editCommands(cs) == cs
    requires Process(d, values, session, attrs, fw, onDisk).result.Ok?
    ensures var o := ExportFrom(Outcome(ExportState(values, EmptyExports, session, attrs, [], None), None), d.params, fw, onDisk);
      var cs := Process(d, values, session, attrs, fw, onDisk).result.value.commands;
      var n := |o.st.commands|;
      n < |cs| && cs[..n] == o.st.commands
      && StartsWith(cs[n], CommandHeader(d.group, d.cmdName, d.hardcoded))
      && (d.cmdName != RgbComposite ==> |cs| == n + 1)
  {
    var o := ExportFrom(Outcome(ExportState(values, EmptyExports, session, attrs, [], None), None), d.params, fw, onDisk);
    CommandShape(d, o.st.values, o.st.run, fw);
    var b := BuildCommand(d, o.st.values, o.st.run, fw).value;
    var cs := o.st.commands + [b.command] + RgbCommands(d.params, d.cmdName, fw);
    RgbCommandsBound(d.params, d.cmdName, fw);
    assert cs[..|o.st.commands|] == o.st.commands;
    assert cs[|o.st.commands|] == b.command;
  }

  /** A run that gets through the builder has one path filed under the own name of each supplied
      multi-layer input. A vector multi-layer input files a list of paths under its name, so,
      given distinct parameter names, it fails the run. */
  lemma RunMultipleLayers(d: Description, values: map<string, Value>, session: map<string, string>, attrs: map<string, string>,
                          fw: Framework, onDisk: set<string>, i: nat)
    requires Process(d, values, session, attrs, fw, onDisk).result.Ok?
    requires i < |d.params| && d.params[i].kind.MultipleLayers?
    ensures var st := ExportFrom(Outcome(ExportState(values, EmptyExports, session, attrs, [], None), None), d.params, fw, onDisk).st;
      var n := d.params[i].name;
      Supplied(st.values, n) ==> n in st.run.entries && st.run.entries[n].Single?
  {
    var o0 := Outcome(ExportState(values, EmptyExports, session, attrs, [], None), None);
    var st := ExportFrom(o0, d.params, fw, onDisk).st;
    var p := d.params[i];
    if Supplied(st.values, p.name) {
      ExportFromKeepsKeys(o0, d.params, fw, onDisk);
      var cellsize := GuessedCellSize(d.params, st.values, fw);
      AppendFragmentsEach(Piece(CommandHeader(d.group, d.cmdName, d.hardcoded), []), d.params, st.values, st.run, d.extentNames, cellsize, fw, i);
      MultipleLayersFlag(p, st.values, st.run, d.extentNames, cellsize, fw);
    }
  }

  /** A run's result maps exactly the declared outputs that are destinations, each to the file
      the framework chose for it. */
  lemma RunResultKeys(d: Description, values: map<string, Value>, session: map<string, string>, attrs: map<string, string>,
                      fw: Framework, onDisk: set<string>)
    requires Process(d, values, session, attrs, fw, onDisk).result.Ok?
    ensures var r := Process(d, values, session, attrs, fw, onDisk).result.value.result;
      (forall o :: o in r <==> o in fw.outputNames && exists i :: 0 <= i < |d.params| && d.params[i].IsDestination() && d.params[i].name == o)
      && (forall o :: o in r ==> r[o] == fw.outputLayer(o))
  {
    var ex := ExportFrom(Outcome(ExportState(values, EmptyExports, session, attrs, [], None), None), d.params, fw, onDisk);
    CommandShape(d, ex.st.values, ex.st.run, fw);
    var cellsize := GuessedCellSize(d.params, values, fw);
    var pc := AppendFragments(Piece(CommandHeader(d.group, d.cmdName, d.hardcoded), []), d.params, ex.st.values, ex.st.run, d.extentNames,
                              GuessedCellSize(d.params, ex.st.values, fw), fw).value;
    DestinationFiles(Outputs(pc.text, [], map[]), d.params, fw);
  }

  /** Every output file is the framework's file for its destination. */
  lemma {:induction false} DestinationFiles(acc: Outputs, defs: seq<Param>, fw: Framework)
    requires forall k :: k in acc.files ==> acc.files[k] == fw.outputLayer(k)
    ensures var o := AppendDestinations(acc, defs, fw); forall k :: k in o.files ==> o.files[k] == fw.outputLayer(k)
    decreases |defs|
  {
    if defs != [] {
      var p := defs[0];
      if !p.IsDestination() {
        DestinationFiles(acc, defs[1..], fw);
      } else {
        var file := fw.outputLayer(p.name);
        DestinationFiles(Outputs(acc.text + " -" + p.name + Quoted(file), if p.IsLayerDestination() then acc.layers + [file] else acc.layers,
                                 acc.files[p.name := file]), defs[1..], fw);
      }
    }
  }

  /** Lines 301-305: a `.prj` file next to each layer output, holding the crs, when there is one. */
  method WriteProjections(outputLayers: seq<string>, crs: Option<string>) returns (writes: seq<FileWrite>)
    ensures writes == PrjWrites(outputLayers, crs)
  {
    writes := [];
    if crs.Some? {
      for i := 0 to |outputLayers|
        invariant writes == PrjWrites(outputLayers[..i], crs)
      {
        var out := outputLayers[i];
        assert outputLayers[..i + 1] == outputLayers[..i] + [out];
        writes := writes + [FileWrite(StemPath(out) + ".prj", crs.value)];
      }
      assert outputLayers[..|outputLayers|] == outputLayers;
    }
  }

  /** Lines 234-239: the header line, then one row per stride of three values; None when the last
      row is incomplete, where line 238 raises IndexError. */
  method WriteMatrixTable(headers: seq<string>, values: seq<string>) returns (table: Option<string>)
    ensures table == MatrixTable(headers, values)
  {
    var text := Join('\t', headers) + "\n";
    var i := 0;
    while i < |values|
      invariant 0 <= i <= |values|
      invariant MatrixTable(headers, values)
        == match MatrixRows(values[i..]) case None => None case Some(rest) => Some(text + rest)
    {
      if |values| < i + 3 {
        return None;
      }
      var row := values[i] + "\t" + values[i + 1] + "\t" + values[i + 2] + "\n";
      assert values[i..][3..] == values[i + 3..];
      assert MatrixRows(values[i..]) == match MatrixRows(values[i + 3..]) case None => None case Some(rest) => Some(row + rest);
      assert forall rest :: text + (row + rest) == (text + row) + rest;
      text := text + row;
      i := i + 3;
    }
    assert values[i..] == [];
    assert text + "" == text;
    return Some(text);
  }

  /** Lines 279-287: the follow-up command for each raster destination of `RGB Composite`. */
  method RgbFollowUps(defs: seq<Param>, cmdName: string, fw: Framework) returns (followUps: seq<string>)
    ensures followUps == RgbCommands(defs, cmdName, fw)
  {
    followUps := [];
    for i := 0 to |defs|
      invariant RgbCommands(defs, cmdName, fw) == followUps + RgbCommands(defs[i..], cmdName, fw)
    {
      RgbCommandsStep(defs, i, cmdName, fw);
      var out := defs[i];
      if out.kind == RasterDestination {
        var filename := fw.compatibleFileName(out.name);
        if cmdName == RgbComposite {
          var c := RgbCommand(filename);
          followUps := followUps + [c];
        }
      }
    }
    assert defs[|defs|..] == [];
  }

  /** `sessionExportedLayers`: export source to converted `.sgrd` file, kept across runs. */
  class ExportSession {
    var layers: map<string, string>

    constructor()
      ensures layers == map[]
    {
      layers := map[];
    }
  }

  class SagaAlgorithm {
    var name: string                        // self._name
    var cmdName: string                     // self.cmdname
    var group: string                       // self.undecorated_group
    var hardcoded: seq<string>              // self.hardcoded_strings
    var params: seq<Param>                  // self.params
    var allowUnmatching: bool               // self.allow_nonmatching_grid_extents
    var extentNames: Option<seq<string>>    // self.extentParamNames
    var exportedLayers: Exports             // self.exportedLayers
    var paramAttrs: map<string, string>     // the `value` attributes set on the definitions at line 188
    const session: ExportSession

    /** The characteristics read from the description file. */
    function Desc(): Description
      reads this
    {
      Description(name, cmdName, group, hardcoded, params, allowUnmatching, extentNames)
    }

    /** The export state, given the locals of `processAlgorithm`. */
    function State(values: map<string, Value>, commands: seq<string>, crs: Option<string>): ExportState
      reads this, session
    {
      ExportState(values, exportedLayers, session.layers, paramAttrs, commands, crs)
    }

    /** `__init__` (lines 66-76): empty lists, then the description file. */
    constructor(session: ExportSession, lines: seq<string>, decorate: string -> string, parse: string -> Param)
      ensures this.session == session
      ensures Desc() == Parse(lines, decorate, parse)
      ensures exportedLayers == EmptyExports && paramAttrs == map[]
    {
      this.session := session;
      name := "";
      cmdName := "";
      group := "";
      hardcoded := [];
      allowUnmatching := false;
      params := [];
      extentNames := None;
      exportedLayers := EmptyExports;
      paramAttrs := map[];
      new;
      DefineCharacteristicsFromFile(lines, decorate, parse);
    }

    /** `defineCharacteristicsFromFile` (lines 98-138): the header lines, then the directives up
        to the first blank line, appended to what the object already holds. */
    method DefineCharacteristicsFromFile(lines: seq<string>, decorate: string -> string, parse: string -> Param)
      modifies this
      ensures Desc() == ApplyAll(WithHeader(old(Desc()), lines, decorate), DirectiveLines(lines, 2), parse)
      ensures exportedLayers == old(exportedLayers) && paramAttrs == old(paramAttrs)
    {
      ReadHeader(lines, decorate);
      ReadDirectiveLines(lines, parse);
    }

    /** Lines 100-120: the name and SAGA command name from the first line, the group from the second. */
    method ReadHeader(lines: seq<string>, decorate: string -> string)
      modifies this
      ensures Desc() == WithHeader(old(Desc()), lines, decorate)
      ensures exportedLayers == old(exportedLayers) && paramAttrs == old(paramAttrs)
    {
      var line := LineAt(lines, 0);
      if '|' in line {
        var tokens := Split(line, '|');
        name := tokens[0];
        cmdName := tokens[1];
      } else {
        name := line;
        cmdName := line;
      }
      name := AlgorithmName(decorate(name));
      group := LineAt(lines, 1);
      assert name == HeaderNames(line, decorate).name && cmdName == HeaderNames(line, decorate).cmdName;
    }

    /** The directive loop (lines 122-138): every line up to the first blank one. */
    method ReadDirectiveLines(lines: seq<string>, parse: string -> Param)
      modifies this
      ensures Desc() == ApplyAll(old(Desc()), DirectiveLines(lines, 2), parse)
      ensures exportedLayers == old(exportedLayers) && paramAttrs == old(paramAttrs)
    {
      var i := 2;
      var line := LineAt(lines, i);
      while line != ""
        invariant 2 <= i && line == LineAt(lines, i)
        invariant ApplyAll(old(Desc()), DirectiveLines(lines, 2), parse) == ApplyAll(Desc(), DirectiveLines(lines, i), parse)
        invariant exportedLayers == old(exportedLayers) && paramAttrs == old(paramAttrs)
        decreases |lines| - i
      {
        assert i < |lines|;
        DirectiveStep(lines, i, Desc(), parse);
        ApplyDirective(line, parse);
        i := i + 1;
        line := LineAt(lines, i);
      }
    }

    /** One directive line (lines 124-137). */
    method ApplyDirective(line: string, parse: string -> Param)
      modifies this
      ensures Desc() == Apply(old(Desc()), line, parse)
      ensures exportedLayers == old(exportedLayers) && paramAttrs == old(paramAttrs)
    {
      if StartsWith(line, "Hardcoded") {
        hardcoded := hardcoded + [DropFirst(line, |"Hardcoded|"|)];
      } else if StartsWith(line, "QgsProcessingParameter") || StartsWith(line, "Parameter") {
        params := params + [parse(line)];
      } else if StartsWith(line, "AllowUnmatching") {
        allowUnmatching := true;
      } else if StartsWith(line, "Extent") {
        extentNames := Some(Split(Strip(DropFirst(line, 6)), ' '));
        params := params + [Param(OutputExtent, Extent)];
      }
    }

    /** `exportRasterLayer` (lines 347-368): reuse the session's file for `source` when it still
        exists, else convert `source` to a fresh `.sgrd` file and return the conversion command. */
    method ExportRasterLayer(source: string, fw: Framework, onDisk: set<string>) returns (command: Option<string>)
      modifies this, session
      ensures var e := ExportRaster(old(exportedLayers), old(session.layers), source, fw, onDisk);
        exportedLayers == e.run && session.layers == e.session && command == e.command
      ensures Desc() == old(Desc()) && paramAttrs == old(paramAttrs)
    {
      if source in session.layers {
        var exported := session.layers[source];
        if exported in onDisk {
          exportedLayers := exportedLayers.Put(source, Single(exported));
          return None;
        } else {
          session.layers := session.layers - {source};
        }
      }
      var filename := match fw.layerName(source) case Some(n) => n case None => Basename(source);
      filename := SafeBaseName(filename);
      var dest := fw.tempName(filename + ".sgrd");
      exportedLayers := exportedLayers.Put(source, Single(dest));
      session.layers := session.layers[source := dest];
      command := Some(ExportCommand(dest, source));
    }

    /** Lines 180-188: the elements of a raster multi-layer input. */
    method ExportRasterList(values: map<string, Value>, commands: seq<string>, crs: Option<string>, pname: string, elems: seq<Value>)
      returns (failure: Option<Error>)
      modifies this
      ensures ExportRasterElems(old(State(values, commands, crs)), pname, elems, 0) == Outcome(State(values, commands, crs), failure)
      ensures Desc() == old(Desc())
    {
      ghost var goal := ExportRasterElems(State(values, commands, crs), pname, elems, 0);
      var layers := elems;
      var i := 0;
      while i < |layers|
        invariant 0 <= i <= |layers| == |elems|
        invariant goal == ExportRasterElems(State(values, commands, crs), pname, layers, i)
        invariant Desc() == old(Desc())
        decreases |layers| - i
      {
        layers, failure := RasterListPass(values, commands, crs, pname, layers, i);
        if failure.Some? {
          return;
        }
        i := i + 1;
      }
      return None;
    }

    /** One pass of the loop at lines 181-188: element `i` is checked, a `.sdat` element is
        replaced, and the `value` attribute is set to the joined list. */
    method RasterListPass(values: map<string, Value>, commands: seq<string>, crs: Option<string>, pname: string, layers: seq<Value>, i: nat)
      returns (layers': seq<Value>, failure: Option<Error>)
      requires i < |layers|
      modifies this
      ensures |layers'| == |layers|
      ensures ExportRasterElems(old(State(values, commands, crs)), pname, layers, i)
        == if failure.Some? then Outcome(State(values, commands, crs), failure)
           else ExportRasterElems(State(values, commands, crs), pname, layers', i + 1)
      ensures Desc() == old(Desc())
    {
      ghost var st0 := State(values, commands, crs);
      RasterStop(st0, pname, layers, i);
      layers' := layers;
      if !layers[i].PyStr? {
        return layers', Some(NotAString(pname));
      }
      var layerfile := layers[i].s;
      if EndsWith(layerfile, "sdat") {
        if pname !in paramAttrs {
          return layers', Some(NoValueAttribute(pname));
        }
        layerfile := DropLast4(paramAttrs[pname]) + "sgrd";
        layers' := layers[i := PyStr(layerfile)];
      } else if !EndsWith(layerfile, "sgrd") {
        return layers', Some(MissingContextArgument);
      }
      var items := TextItems(layers');
      if items.None? {
        return layers', Some(NotText);
      }
      paramAttrs := paramAttrs[pname := Join(';', items.value)];
      assert State(values, commands, crs) == st0.(attrs := st0.attrs[pname := Join(';', items.value)]);
      RasterStep(st0, pname, layers, i, layers', items.value);
      failure := None;
    }

    /** Lines 190-207: the elements of a vector multi-layer input. */
    method ExportVectorList(values: map<string, Value>, commands: seq<string>, crs0: Option<string>, pname: string, elems: seq<Value>, fw: Framework)
      returns (crs: Option<string>, failure: Option<Error>)
      modifies this
      ensures ExportVectorElems(old(State(values, commands, crs0)), pname, elems, 0, fw) == Outcome(State(values, commands, crs), failure)
      ensures Desc() == old(Desc()) && paramAttrs == old(paramAttrs)
    {
      crs := crs0;
      for i := 0 to |elems|
        invariant ExportVectorElems(old(State(values, commands, crs0)), pname, elems, 0, fw) == ExportVectorElems(State(values, commands, crs), pname, elems, i, fw)
        invariant Desc() == old(Desc()) && paramAttrs == old(paramAttrs)
      {
        var layer := elems[i];
        if crs.None? {
          crs := Some(fw.sourceCrsWkt(layer));
        }
        var layerPath := fw.compatiblePath(layer);
        if layerPath == "" {
          return crs, Some(UnsupportedFormat);
        }
        if pname in exportedLayers.entries {
          match exportedLayers.entries[pname] {
            case Many(ps) =>
              exportedLayers := exportedLayers.Put(pname, Many(ps + [layerPath]));
            case Single(_) =>
              return crs, Some(NotAList(pname));
          }
        } else {
          exportedLayers := exportedLayers.Put(pname, Many([layerPath]));
        }
      }
      return crs, None;
    }

    /** Lines 153-158: a raster input given as the path `s`. */
    method ConvertRasterInput(name: string, s: string, values0: map<string, Value>, commands0: seq<string>, crs: Option<string>, fw: Framework, onDisk: set<string>)
      returns (values: map<string, Value>, commands: seq<string>)
      modifies this, session
      ensures State(values, commands, crs) == Export.ExportRasterInput(old(State(values0, commands0, crs)), name, s, fw, onDisk)
      ensures Desc() == old(Desc())
    {
      values, commands := values0, commands0;
      if EndsWith(s, "sdat") {
        values := values[name := PyStr(s[..|s| - 4] + "sgrd")];
      } else if !EndsWith(s, "sgrd") {
        var exportCommand := ExportRasterLayer(s, fw, onDisk);
        if exportCommand.Some? {
          commands := commands + [exportCommand.value];
        }
      }
    }

    /** One pass of the export loop (lines 149-207). */
    method ExportParameter(p: Param, values0: map<string, Value>, commands0: seq<string>, crs0: Option<string>, fw: Framework, onDisk: set<string>)
      returns (values: map<string, Value>, commands: seq<string>, crs: Option<string>, failure: Option<Error>)
      modifies this, session
      ensures ExportParam(p, old(State(values0, commands0, crs0)), fw, onDisk) == Outcome(State(values, commands, crs), failure)
      ensures Desc() == old(Desc())
    {
      values, commands, crs, failure := values0, commands0, crs0, None;
      if !Supplied(values, p.name) {
        return;
      }
      var v := values[p.name];
      match p.kind {
        case RasterLayer =>
          match v {
            case PyStr(s) =>
              values, commands := ConvertRasterInput(p.name, s, values, commands, crs, fw, onDisk);
            case _ =>
              failure := Some(NotAString(p.name));
          }
        case FeatureSource =>
          if crs.None? {
            crs := Some(fw.sourceCrsWkt(v));
          }
          var layerPath := fw.compatiblePath(v);
          if layerPath != "" {
            exportedLayers := exportedLayers.Put(p.name, Single(layerPath));
          } else {
            failure := Some(UnsupportedFormat);
          }
        case MultipleLayers(t) =>
          var layers := fw.asLayerList(v);
          if layers.None? || |layers.value| == 0 {
            return;
          }
          if t == TypeRaster {
            failure := ExportRasterList(values, commands, crs, p.name, layers.value);
          } else {
            crs, failure := ExportVectorList(values, commands, crs, p.name, layers.value, fw);
          }
        case _ =>
      }
    }

    /** Step 1 of `processAlgorithm` (lines 141-207): a fresh `exportedLayers`, then each
        definition in turn until one raises. */
    method ExportInputs(values0: map<string, Value>, fw: Framework, onDisk: set<string>)
      returns (values: map<string, Value>, commands: seq<string>, crs: Option<string>, failure: Option<Error>)
      modifies this, session
      ensures ExportFrom(Outcome(old(State(values0, [], None)).(run := EmptyExports), None), old(params), fw, onDisk)
        == Outcome(State(values, commands, crs), failure)
      ensures Desc() == old(Desc())
    {
      exportedLayers := EmptyExports;
      values, commands, crs, failure := values0, [], None, None;
      var i := 0;
      while i < |params| && failure.None?
        invariant 0 <= i <= |params| && Desc() == old(Desc())
        invariant ExportFrom(Outcome(old(State(values0, [], None)).(run := EmptyExports), None), params, fw, onDisk)
          == ExportFrom(Outcome(State(values, commands, crs), failure), params[i..], fw, onDisk)
        decreases |params| - i
      {
        ghost var before := Outcome(State(values, commands, crs), failure);
        assert params[i..][0] == params[i] && params[i..][1..] == params[i + 1..];
        values, commands, crs, failure := ExportParameter(params[i], values, commands, crs, fw, onDisk);
        i := i + 1;
      }
    }

    /** `getOutputCellsize` (lines 334-345). */
    method GetOutputCellsize(values: map<string, Value>, fw: Framework) returns (cellsize: real)
      ensures cellsize == GuessedCellSize(params, values, fw)
    {
      cellsize := 0.0;
      for i := 0 to |params|
        invariant forall k :: 0 <= k < i ==> params[k].name != "USER_SIZE" || "USER_SIZE" !in values
      {
        if params[i].name in values && params[i].name == "USER_SIZE" {
          cellsize := fw.asDouble(values[params[i].name]);
          break;
        }
      }
    }

    /** Lines 224-225: each key of `exportedLayers` replaced in the value by its entry. */
    method ReplaceExported(v: Value, pname: string) returns (r: Result<Value>)
      ensures r == ReplaceKeys(v, exportedLayers.keys, exportedLayers.entries, pname)
    {
      var keys := exportedLayers.keys;
      var s := v;
      for i := 0 to |keys|
        invariant ReplaceKeys(v, keys, exportedLayers.entries, pname) == ReplaceKeys(s, keys[i..], exportedLayers.entries, pname)
      {
        assert keys[i..][0] == keys[i] && keys[i..][1..] == keys[i + 1..];
        var layer := keys[i];
        match s {
          case PyStr(t) =>
            if layer !in exportedLayers.entries {
              return Err(MissingKey(layer));
            }
            match exportedLayers.entries[layer] {
              case Single(path) =>
                s := PyStr(Replace(t, layer, path));
              case Many(_) =>
                return Err(NotText);
            }
          case _ =>
            return Err(NotAString(pname));
        }
      }
      return Ok(s);
    }

    /** Lines 241-256: the four extent flags. */
    method ExtentArguments(v: Value, values: map<string, Value>, fw: Framework) returns (r: Result<Piece>)
      ensures r == (match extentNames
        case None => Err(NoExtentNames)
        case Some(names) =>
          if |names| < 4 then Err(NoExtentNames)
          else Ok(Piece(ExtentFlags(names, ExtentValues(fw.asExtent(v), GuessedCellSize(params, values, fw)), 4, fw), [])))
    {
      var cellsize := GetOutputCellsize(values, fw);
      var rect := fw.asExtent(v);
      var corners := ExtentValues(rect, cellsize);
      if extentNames.None? || |extentNames.value| < 4 {
        return Err(NoExtentNames);
      }
      var names := extentNames.value;
      var text := "";
      for i := 0 to 4
        invariant text == ExtentFlags(names, corners, i, fw)
      {
        text := text + " -" + names[i] + " " + fw.realText(corners[i]);
      }
      return Ok(Piece(text, []));
    }

    /** One pass of the loop at line 213. */
    method ParameterArguments(p: Param, values: map<string, Value>, fw: Framework) returns (r: Result<Piece>)
      ensures r == Fragment(p, values, exportedLayers, extentNames, GuessedCellSize(params, values, fw), fw)
    {
      if !Supplied(values, p.name) || p.IsDestination() {
        return Ok(Piece("", []));
      }
      var v := values[p.name];
      match p.kind {
        case RasterLayer =>
          r := LayerFragment(p.name, exportedLayers);
        case FeatureSource =>
          r := LayerFragment(p.name, exportedLayers);
        case MultipleLayers(_) =>
          var replaced := ReplaceExported(v, p.name);
          if replaced.Err? {
            return Err(replaced.error);
          }
          if p.name !in exportedLayers.entries {
            return Err(MissingKey(p.name));
          }
          var flag := match exportedLayers.entries[p.name] case Single(path) => Join(';', Chars(path)) case Many(ps) => Join(';', ps);
          match replaced.value {
            case PyStr(s) =>
              r := Ok(Piece(" -" + flag + Quoted(s), []));
            case _ =>
              r := Err(NotText);
          }
        case Boolean =>
          r := Ok(Piece(" -" + Strip(p.name) + (if fw.asBool(v) then " true" else " false"), []));
        case Matrix(headers) =>
          var tableFile := fw.tableFile(p.name);
          var table := WriteMatrixTable(headers, fw.asMatrix(v));
          if table.None? {
            return Err(IncompleteMatrixRow(p.name));
          }
          r := Ok(Piece(" -" + p.name + Quoted(tableFile), [FileWrite(tableFile, table.value)]));
        case Extent =>
          r := ExtentArguments(v, values, fw);
        case Number =>
          r := Ok(Piece(" -" + p.name + " " + fw.realText(fw.asDouble(v)), []));
        case Enum =>
          r := Ok(Piece(" -" + p.name + " " + IntText(fw.asEnum(v)), []));
        case StringParam =>
          r := Ok(Piece(" -" + p.name + Quoted(fw.asFile(v)), []));
        case FileParam =>
          r := Ok(Piece(" -" + p.name + Quoted(fw.asFile(v)), []));
        case Field =>
          r := Ok(Piece(" -" + p.name + Quoted(fw.asString(v)), []));
        case _ =>
          r := Ok(Piece("", []));
      }
    }

    /** Step 2 of `processAlgorithm` (lines 209-275): the main command, the matrix tables it
        writes, the layer outputs and the output files. */
    method BuildCommandLine(values: map<string, Value>, fw: Framework) returns (r: Result<Built>)
      ensures r == BuildCommand(Desc(), values, exportedLayers, fw)
    {
      var command := CommandHeader(group, cmdName, hardcoded);
      var tables: seq<FileWrite> := [];
      ghost var cellsize := GuessedCellSize(params, values, fw);
      for i := 0 to |params|
        invariant AppendFragments(Piece(CommandHeader(group, cmdName, hardcoded), []), params, values, exportedLayers, extentNames, cellsize, fw)
          == AppendFragments(Piece(command, tables), params[i..], values, exportedLayers, extentNames, cellsize, fw)
      {
        assert params[i..][0] == params[i] && params[i..][1..] == params[i + 1..];
        var piece := ParameterArguments(params[i], values, fw);
        if piece.Err? {
          return Err(piece.error);
        }
        command := command + piece.value.text;
        tables := tables + piece.value.tables;
      }
      assert params[|params|..] == [];
      ghost var pieces := command;
      var outputLayers: seq<string> := [];
      var outputFiles: map<string, string> := map[];
      for i := 0 to |params|
        invariant AppendDestinations(Outputs(pieces, [], map[]), params, fw)
          == AppendDestinations(Outputs(command, outputLayers, outputFiles), params[i..], fw)
      {
        assert params[i..][0] == params[i] && params[i..][1..] == params[i + 1..];
        var out := params[i];
        if out.IsDestination() {
          var file := fw.outputLayer(out.name);
          if out.IsLayerDestination() {
            outputLayers := outputLayers + [file];
          }
          outputFiles := outputFiles[out.name := file];
          command := command + " -" + out.name + Quoted(file);
        }
      }
      assert params[|params|..] == [];
      return Ok(Built(command, tables, outputLayers, outputFiles));
    }

    /** `processAlgorithm` (lines 140-311): export the inputs, build the command, add the
        `RGB Composite` follow-ups, pass the commands through the hook, write the `.prj`
        sidecars and map the outputs. Running SAGA itself happens between the last two steps. */
    method ProcessAlgorithm(values0: map<string, Value>, fw: Framework, onDisk: set<string>) returns (r: Result<RunResult>)
      modifies this, session
      ensures Process(old(Desc()), values0, old(session.layers), old(paramAttrs), fw, onDisk)
        == Processed(r, exportedLayers, session.layers, paramAttrs)
      ensures Desc() == old(Desc())
    {
      var values, commands, crs, failure := ExportInputs(values0, fw, onDisk);
      if failure.Some? {
        return Err(failure.value);
      }
      var built := BuildCommandLine(values, fw);
      if built.Err? {
        return Err(built.error);
      }
      var followUps := RgbFollowUps(params, cmdName, fw);
      commands := fw.editCommands(commands + [built.value.command] + followUps);
      var prj := WriteProjections(built.value.outputLayers, crs);
      var result := MapResults(fw.outputNames, built.value.outputFiles);
      assert result == ResultMap(fw.outputNames, built.value.outputFiles);
      return Ok(RunResult(commands, built.value.tables + prj, result));
    }

    /** `checkParameterValues` (lines 370-398). */
    method CheckParameterValues(values: map<string, Value>, fw: Framework) returns (r: Result<Verdict>)
      ensures r == Check(params, values, allowUnmatching, fw)
    {
      var scan := Scanning(None);
      for i := 0 to |params|
        invariant scan.Scanning?
        invariant ScanDefs(Scanning(None), params, values, allowUnmatching, fw) == ScanDefs(scan, params[i..], values, allowUnmatching, fw)
      {
        assert params[i..][0] == params[i] && params[i..][1..] == params[i + 1..];
        var files := FilesOf(params[i], values);
        if files.Err? {
          return Err(files.error);
        }
        var fs := files.value;
        ghost var start := scan;
        for j := 0 to |fs|
          invariant scan.Scanning?
          invariant ScanFiles(start, fs, allowUnmatching, fw) == ScanFiles(scan, fs[j..], allowUnmatching, fw)
        {
          assert fs[j..][0] == fs[j] && fs[j..][1..] == fs[j + 1..];
          var layer := fw.layerInfo(fs[j]);
          if layer.None? {
            continue;
          }
          if layer.value.bandCount > 1 {
            ScanFilesRejected(Rejected(MultibandLayer(layer.value.name)), fs[j + 1..], allowUnmatching, fw);
            ghost var rest := ScanFiles(start, fs, allowUnmatching, fw);
            assert ScanDefs(rest, params[i + 1..], values, allowUnmatching, fw) == Ok(rest);
            return Ok(Verdict(false, MultibandLayer(layer.value.name)));
          }
          if !allowUnmatching {
            if scan.grid.None? {
              scan := Scanning(Some(GridOf(layer.value)));
            } else if scan.grid.value != GridOf(layer.value) {
              ScanFilesRejected(Rejected(GridMismatch), fs[j + 1..], allowUnmatching, fw);
              ghost var rest := ScanFiles(start, fs, allowUnmatching, fw);
              assert ScanDefs(rest, params[i + 1..], values, allowUnmatching, fw) == Ok(rest);
              return Ok(Verdict(false, GridMismatch));
            }
          }
        }
      }
      return Ok(fw.baseCheck);
    }
  }
}
