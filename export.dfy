/** Step 1 of `processAlgorithm` (SagaAlgorithm.py:147-207) and `exportRasterLayer`
    (SagaAlgorithm.py:347-368): which inputs are converted for SAGA, the commands that convert
    them, and the two export maps. */
module Export {
  import opened Wrappers
  import opened Types
  import opened Text

  /** An entry of `self.exportedLayers`: a path, or the list of paths a multi-layer vector
      parameter accumulates. */
  datatype Exported = Single(path: string) | Many(paths: seq<string>)

  /** `self.exportedLayers`: a Python dict, whose keys keep their insertion order. */
  datatype Exports = Exports(keys: seq<string>, entries: map<string, Exported>) {
    /** `d[k] = v`: a new key goes last, an existing key keeps its place. */
    function Put(k: string, v: Exported): (r: Exports)
      ensures r.entries == entries[k := v]
      ensures forall x :: x in keys ==> x in r.keys
      ensures k in r.keys
    {
      Exports(if k in keys then keys else keys + [k], entries[k := v])
    }
  }

  /** Every entry's key is in the insertion order, as in a Python dict. */
  predicate ValidExports(run: Exports) {
    forall k :: k in run.entries ==> k in run.keys
  }

  const EmptyExports := Exports([], map[])

  /** The export command line 368 returns. */
  function ExportCommand(dest: string, source: string): string {
    "io_gdal 0 -TRANSFORM 1 -RESAMPLING 3 -GRIDS \"" + dest + "\" -FILES \"" + source + "\""
  }

  /** Lines 361-364: keep `[A-Za-z0-9:]`, and use `layer` when nothing is left. */
  function SafeBaseName(s: string): (r: string)
    ensures |r| > 0
    ensures forall i :: 0 <= i < |r| ==> IsValidChar(r[i])
    ensures (exists i :: 0 <= i < |s| && IsValidChar(s[i])) ==> r == KeepValid(s)
  {
    var kept := KeepValid(s);
    assert (exists i :: 0 <= i < |s| && IsValidChar(s[i])) ==> kept != [] by {
      if exists i :: 0 <= i < |s| && IsValidChar(s[i]) {
        var i :| 0 <= i < |s| && IsValidChar(s[i]);
        KeepValidCounts(s, s[i]);
        assert s[i] in multiset(s);
      }
    }
    if |kept| == 0 then "layer" else kept
  }

  /** A name made only of punctuation falls back to `layer`. */
  lemma SafeBaseNameFallback(s: string)
    requires forall i :: 0 <= i < |s| ==> !IsValidChar(s[i])
    ensures SafeBaseName(s) == "layer"
  {
    KeepValidNone(s);
  }

  /** What `exportRasterLayer` leaves behind: the two maps and the command it returns. */
  datatype RasterExport = RasterExport(run: Exports, session: map<string, string>, command: Option<string>)

  /** `exportRasterLayer(source, context)`; `onDisk` is the set of paths `os.path.exists` accepts. */
  function ExportRaster(run: Exports, session: map<string, string>, source: string, fw: Framework, onDisk: set<string>): RasterExport {
    if source in session && session[source] in onDisk then
      RasterExport(run.Put(source, Single(session[source])), session, None)
    else
      var evicted := if source in session then session - {source} else session;
      var dest := ExportDest(source, fw);
      RasterExport(run.Put(source, Single(dest)), evicted[source := dest], Some(ExportCommand(dest, source)))
  }

  /** No command is returned exactly when the session cache holds `source` and its file exists;
      the cached path is then recorded for this run and the cache is left as it was. */
  lemma CacheHit(run: Exports, session: map<string, string>, source: string, fw: Framework, onDisk: set<string>)
    ensures var e := ExportRaster(run, session, source, fw, onDisk);
      (e.command == None <==> source in session && session[source] in onDisk)
      && (e.command == None ==> e.session == session && e.run.entries == run.entries[source := Single(session[source])])
  {
  }

  /** The destination of a fresh export (lines 358-365): the layer's name, or else the file's
      base name, sanitised, with `.sgrd`, in the temporary folder. */
  function ExportDest(source: string, fw: Framework): string {
    var filename := match fw.layerName(source) case Some(n) => n case None => Basename(source);
    fw.tempName(SafeBaseName(filename) + ".sgrd")
  }

  /** On a miss (or a stale entry, which is dropped), the session cache maps `source` to the
      fresh destination, no other key of it changes, and the conversion command is returned. */
  lemma FreshExport(run: Exports, session: map<string, string>, source: string, fw: Framework, onDisk: set<string>)
    requires !(source in session && session[source] in onDisk)
    ensures var e := ExportRaster(run, session, source, fw, onDisk);
      var dest := ExportDest(source, fw);
      && e.command == Some(ExportCommand(dest, source))
      && e.session.Keys == session.Keys + {source} && e.session[source] == dest
      && (forall k :: k in session && k != source ==> e.session[k] == session[k])
  {
    var dest := ExportDest(source, fw);
    var evicted := if source in session then session - {source} else session;
    assert ExportRaster(run, session, source, fw, onDisk).session == evicted[source := dest];
    assert evicted.Keys + {source} == session.Keys + {source};
  }

  /** On a miss, this run's exports record `source` as the fresh destination and keep every
      other entry. */
  lemma FreshExportRecorded(run: Exports, session: map<string, string>, source: string, fw: Framework, onDisk: set<string>)
    requires !(source in session && session[source] in onDisk)
    ensures var e := ExportRaster(run, session, source, fw, onDisk);
      && e.run.entries.Keys == run.entries.Keys + {source} && e.run.entries[source] == Single(ExportDest(source, fw))
      && (forall k :: k in run.entries && k != source ==> e.run.entries[k] == run.entries[k])
  {
    assert ExportRaster(run, session, source, fw, onDisk).run == run.Put(source, Single(ExportDest(source, fw)));
  }

  /** In the session, asking twice for the same source once its converted file exists gives one
      export command: the second request reuses the cached path. */
  lemma SecondExportReuses(run: Exports, session: map<string, string>, source: string, fw: Framework, onDisk: set<string>)
    requires !(source in session && session[source] in onDisk)
    requires ExportRaster(run, session, source, fw, onDisk).session[source] in onDisk
    ensures var e1 := ExportRaster(run, session, source, fw, onDisk);
      var e2 := ExportRaster(EmptyExports, e1.session, source, fw, onDisk);
      e1.command.Some? && e2.command == None && e2.session == e1.session
      && e2.run.entries == map[source := e1.run.entries[source]]
  {
  }

  /** A cached path whose file is gone is not reused: a new export command is produced. */
  lemma StaleEntryReexported(run: Exports, session: map<string, string>, source: string, fw: Framework, onDisk: set<string>)
    requires source in session && session[source] !in onDisk
    ensures ExportRaster(run, session, source, fw, onDisk).command.Some?
  {
  }

  /** The state step 1 works on. `values` is the `parameters` dict (rewritten at line 154),
      `attrs` are the `value` attributes set on multi-layer definitions (line 188), which live
      on the definition objects and so outlast the run. */
  datatype ExportState = ExportState(
    values: map<string, Value>,
    run: Exports,
    session: map<string, string>,
    attrs: map<string, string>,
    commands: seq<string>,
    crs: Option<string>)

  /** A state and, if the step raised, the exception. */
  datatype Outcome = Outcome(st: ExportState, failure: Option<Error>)

  /** The crs is captured from the first vector input only (lines 163-165, 194-196). */
  function CaptureCrs(crs: Option<string>, v: Value, fw: Framework): Option<string> {
    if crs.None? then Some(fw.sourceCrsWkt(v)) else crs
  }

  /** The items of a list, when every one is a string, as `str.join` needs. */
  function TextItems(vs: seq<Value>): (r: Option<seq<string>>)
    ensures r.Some? <==> forall i :: 0 <= i < |vs| ==> vs[i].PyStr?
    ensures r.Some? ==> |r.value| == |vs| && forall i :: 0 <= i < |vs| ==> r.value[i] == vs[i].s
  {
    if forall i :: 0 <= i < |vs| ==> vs[i].PyStr? then Some(seq(|vs|, i requires 0 <= i < |vs| => vs[i].s)) else None
  }

  /** A list element SAGA can read as it is, or after renaming: a path ending `sdat` or `sgrd`. */
  predicate NativeGrid(v: Value) {
    v.PyStr? && (EndsWith(v.s, "sdat") || EndsWith(v.s, "sgrd"))
  }

  /** Lines 180-188 from element `i` on. An element that is not a string has no `endswith`.
      Line 182 reads the definition's `value` attribute, line 185 calls exportRasterLayer without
      `context`, which raises, and line 188 joins the whole list, which raises when an item is
      not a string. */
  function ExportRasterElems(st: ExportState, name: string, layers: seq<Value>, i: nat): Outcome
    decreases |layers| - i
  {
    if i >= |layers| then Outcome(st, None)
    else match layers[i]
      case PyStr(f) =>
        if EndsWith(f, "sdat") && name !in st.attrs then Outcome(st, Some(NoValueAttribute(name)))
        else if !EndsWith(f, "sdat") && !EndsWith(f, "sgrd") then Outcome(st, Some(MissingContextArgument))
        else
          var layers' := if EndsWith(f, "sdat") then layers[i := PyStr(DropLast4(st.attrs[name]) + "sgrd")] else layers;
          (match TextItems(layers')
           case None => Outcome(st, Some(NotText))
           case Some(items) => ExportRasterElems(st.(attrs := st.attrs[name := Join(';', items)]), name, layers', i + 1))
      case _ => Outcome(st, Some(NotAString(name)))
  }

  /** Lines 191-207 from element `i` on: each element's compatible path is appended to the
      list under the parameter's name. */
  function ExportVectorElems(st: ExportState, name: string, layers: seq<Value>, i: nat, fw: Framework): Outcome
    decreases |layers| - i
  {
    if i >= |layers| then Outcome(st, None)
    else
      var v := layers[i];
      var st1 := st.(crs := CaptureCrs(st.crs, v, fw));
      var path := fw.compatiblePath(v);
      if path == "" then Outcome(st1, Some(UnsupportedFormat))
      else if name !in st1.run.entries then
        ExportVectorElems(st1.(run := st1.run.Put(name, Many([path]))), name, layers, i + 1, fw)
      else match st1.run.entries[name]
        case Many(ps) => ExportVectorElems(st1.(run := st1.run.Put(name, Many(ps + [path]))), name, layers, i + 1, fw)
        case Single(_) => Outcome(st1, Some(NotAList(name)))
  }

  /** Lines 153-158: a raster input given as a path. A `.sdat` path is renamed to its `.sgrd`
      header, a `.sgrd` path is used as it is, and anything else is exported. */
  function ExportRasterInput(st: ExportState, name: string, s: string, fw: Framework, onDisk: set<string>): ExportState {
    if EndsWith(s, "sdat") then st.(values := st.values[name := PyStr(s[..|s| - 4] + "sgrd")])
    else if EndsWith(s, "sgrd") then st
    else
      var e := ExportRaster(st.run, st.session, s, fw, onDisk);
      var cmds := match e.command case Some(c) => st.commands + [c] case None => st.commands;
      st.(run := e.run, session := e.session, commands := cmds)
  }

  /** One pass of the loop at line 149. */
  function ExportParam(p: Param, st: ExportState, fw: Framework, onDisk: set<string>): Outcome {
    if !Supplied(st.values, p.name) then Outcome(st, None)
    else
      var v := st.values[p.name];
      match p.kind
      case RasterLayer =>
        (match v
         case PyStr(s) => Outcome(ExportRasterInput(st, p.name, s, fw, onDisk), None)
         case _ => Outcome(st, Some(NotAString(p.name))))
      case FeatureSource =>
        var st1 := st.(crs := CaptureCrs(st.crs, v, fw));
        var path := fw.compatiblePath(v);
        if path != "" then Outcome(st1.(run := st1.run.Put(p.name, Single(path))), None)
        else Outcome(st1, Some(UnsupportedFormat))
      case MultipleLayers(t) =>
        (match fw.asLayerList(v)
         case None => Outcome(st, None)
         case Some(layers) =>
           if |layers| == 0 then Outcome(st, None)
           else if t == TypeRaster then ExportRasterElems(st, p.name, layers, 0)
           else ExportVectorElems(st, p.name, layers, 0, fw))
      case _ => Outcome(st, None)
  }

  /** The loop at line 149 over the remaining definitions; it stops at the first exception. */
  function ExportFrom(o: Outcome, defs: seq<Param>, fw: Framework, onDisk: set<string>): Outcome
    decreases |defs|
  {
    if o.failure.Some? || defs == [] then o
    else ExportFrom(ExportParam(defs[0], o.st, fw, onDisk), defs[1..], fw, onDisk)
  }

  /** A raster input already in SAGA's format (`.sgrd`) is used as it is: nothing changes. */
  lemma NativeRasterUntouched(p: Param, st: ExportState, fw: Framework, onDisk: set<string>)
    requires p.kind == RasterLayer && p.name in st.values
    requires st.values[p.name].PyStr? && EndsWith(st.values[p.name].s, "sgrd")
    ensures ExportParam(p, st, fw, onDisk) == Outcome(st, None)
  {
  }

  /** A raster input pointing at SAGA's data file (`.sdat`) is renamed to its header file: same
      text up to the last four characters, now ending `sgrd`. Nothing else changes: no command,
      no export entry, no other parameter. */
  lemma DataFileRewritten(p: Param, st: ExportState, fw: Framework, onDisk: set<string>)
    requires p.kind == RasterLayer && p.name in st.values
    requires st.values[p.name].PyStr? && EndsWith(st.values[p.name].s, "sdat")
    ensures var o := ExportParam(p, st, fw, onDisk);
      var s := st.values[p.name].s;
      && o.failure == None
      && o.st == st.(values := st.values[p.name := PyStr(s[..|s| - 4] + "sgrd")])
      && EndsWith(o.st.values[p.name].s, "sgrd") && |o.st.values[p.name].s| == |s|
  {
    var s := st.values[p.name].s;
    var t := s[..|s| - 4] + "sgrd";
    assert t[|t| - 4..] == "sgrd";
  }

  /** Absent and None parameters are skipped whatever their kind. */
  lemma UnsuppliedSkipped(p: Param, st: ExportState, fw: Framework, onDisk: set<string>)
    requires !Supplied(st.values, p.name)
    ensures ExportParam(p, st, fw, onDisk) == Outcome(st, None)
  {
  }

  /** The raster list loop only gets through a list whose every element (from `i` on) is a path
      ending `sdat` or `sgrd`: any other element raises. */
  lemma {:induction false} RasterListSucceedsOnNative(st: ExportState, name: string, layers: seq<Value>, i: nat)
    ensures ExportRasterElems(st, name, layers, i).failure.None? ==> forall k :: i <= k < |layers| ==> NativeGrid(layers[k])
    decreases |layers| - i
  {
    if i < |layers| && NativeGrid(layers[i]) {
      var f := layers[i].s;
      var layers' := if EndsWith(f, "sdat") && name in st.attrs then layers[i := PyStr(DropLast4(st.attrs[name]) + "sgrd")] else layers;
      match TextItems(layers')
      case None =>
      case Some(items) =>
        if !EndsWith(f, "sdat") || name in st.attrs {
          RasterListSucceedsOnNative(st.(attrs := st.attrs[name := Join(';', items)]), name, layers', i + 1);
          assert forall k :: i < k < |layers| ==> layers'[k] == layers[k];
        }
    }
  }

  /** In a list of paths, the first element that is neither `.sdat` nor `.sgrd` raises the
      missing-argument error of line 185, provided the loop reaches it: the elements before it
      are `.sdat` or `.sgrd`, and a leading `.sdat` finds a `value` attribute. */
  lemma RasterListExportRaises(st: ExportState, name: string, layers: seq<Value>, k: nat)
    requires k < |layers|
    requires forall j :: 0 <= j < |layers| ==> layers[j].PyStr?
    requires forall j :: 0 <= j < k ==> NativeGrid(layers[j])
    requires !NativeGrid(layers[k])
    requires name in st.attrs || !EndsWith(layers[0].s, "sdat")
    ensures ExportRasterElems(st, name, layers, 0).failure == Some(MissingContextArgument)
  {
    RaisesFrom(st, name, layers, 0, k);
  }

  lemma {:induction false} RaisesFrom(st: ExportState, name: string, layers: seq<Value>, i: nat, k: nat)
    requires i <= k < |layers|
    requires forall j :: 0 <= j < |layers| ==> layers[j].PyStr?
    requires forall j :: i <= j < k ==> NativeGrid(layers[j])
    requires !NativeGrid(layers[k])
    requires name in st.attrs || !EndsWith(layers[i].s, "sdat")
    ensures ExportRasterElems(st, name, layers, i).failure == Some(MissingContextArgument)
    decreases k - i
  {
    if i < k {
      var f := layers[i].s;
      var layers' := if EndsWith(f, "sdat") then layers[i := PyStr(DropLast4(st.attrs[name]) + "sgrd")] else layers;
      var items := TextItems(layers').value;
      RasterStep(st, name, layers, i, layers', items);
      RaisesFrom(st.(attrs := st.attrs[name := Join(';', items)]), name, layers', i + 1, k);
    }
  }

  /** The paths of a list whose items are all strings. */
  function Texts(layers: seq<Value>): seq<string>
    requires forall j :: 0 <= j < |layers| ==> layers[j].PyStr?
  {
    TextItems(layers).value
  }

  /** In a list of `.sgrd` paths with one `.sdat` path at position `k`, that element is not
      renamed from its own path (line 182): it becomes the definition's `value` attribute, cut by
      four characters, plus `sgrd`. That attribute is the previous run's, or it is this list
      joined by ';' once an earlier element has set it (line 188). With neither, the loop raises.
      The list, so rewritten and joined, is all that the loop leaves behind. */
  lemma RasterListDataFile(st: ExportState, name: string, layers: seq<Value>, k: nat)
    requires k < |layers|
    requires forall j :: 0 <= j < |layers| && j != k ==> layers[j].PyStr? && EndsWith(layers[j].s, "sgrd")
    requires layers[k].PyStr? && EndsWith(layers[k].s, "sdat")
    ensures var o := ExportRasterElems(st, name, layers, 0);
      if k == 0 && name !in st.attrs then o == Outcome(st, Some(NoValueAttribute(name)))
      else
        var before := if k == 0 then st.attrs[name] else Join(';', Texts(layers));
        o == Outcome(st.(attrs := st.attrs[name := Join(';', Texts(layers)[k := DropLast4(before) + "sgrd"])]), None)
  {
    if k > 0 {
      SgrdPrefix(st, name, layers, 0, k);
      SdatAt(st.(attrs := st.attrs[name := Join(';', Texts(layers))]), name, layers, k);
    } else if name in st.attrs {
      SdatAt(st, name, layers, k);
    }
  }

  /** One pass of the raster list loop over a `.sdat` or `.sgrd` element whose list can be joined. */
  lemma RasterStep(st: ExportState, name: string, layers: seq<Value>, i: nat, layers': seq<Value>, items: seq<string>)
    requires i < |layers| && NativeGrid(layers[i])
    requires EndsWith(layers[i].s, "sdat") ==> name in st.attrs
    requires layers' == if EndsWith(layers[i].s, "sdat") then layers[i := PyStr(DropLast4(st.attrs[name]) + "sgrd")] else layers
    requires TextItems(layers') == Some(items)
    ensures ExportRasterElems(st, name, layers, i) == ExportRasterElems(st.(attrs := st.attrs[name := Join(';', items)]), name, layers', i + 1)
  {
  }

  /** The ways one pass of the raster list loop raises. */
  lemma RasterStop(st: ExportState, name: string, layers: seq<Value>, i: nat)
    requires i < |layers|
    ensures !layers[i].PyStr? ==> ExportRasterElems(st, name, layers, i) == Outcome(st, Some(NotAString(name)))
    ensures layers[i].PyStr? && EndsWith(layers[i].s, "sdat") && name !in st.attrs
      ==> ExportRasterElems(st, name, layers, i) == Outcome(st, Some(NoValueAttribute(name)))
    ensures layers[i].PyStr? && !EndsWith(layers[i].s, "sdat") && !EndsWith(layers[i].s, "sgrd")
      ==> ExportRasterElems(st, name, layers, i) == Outcome(st, Some(MissingContextArgument))
    ensures NativeGrid(layers[i]) && (EndsWith(layers[i].s, "sdat") ==> name in st.attrs)
      && TextItems(if EndsWith(layers[i].s, "sdat") then layers[i := PyStr(DropLast4(st.attrs[name]) + "sgrd")] else layers).None?
      ==> ExportRasterElems(st, name, layers, i) == Outcome(st, Some(NotText))
  {
  }

  /** Replacing one string item of a list of strings replaces that text. */
  lemma TextsUpdate(layers: seq<Value>, k: nat, f: string)
    requires k < |layers|
    requires forall j :: 0 <= j < |layers| ==> layers[j].PyStr?
    ensures TextItems(layers[k := PyStr(f)]) == Some(Texts(layers)[k := f])
  {
    var r := TextItems(layers[k := PyStr(f)]).value;
    assert r == Texts(layers)[k := f];
  }

  /** The `.sdat` element at `k`, followed by `.sgrd` elements, with a `value` attribute set. */
  lemma SdatAt(st: ExportState, name: string, layers: seq<Value>, k: nat)
    requires k < |layers| && name in st.attrs
    requires forall j :: 0 <= j < |layers| && j != k ==> layers[j].PyStr? && EndsWith(layers[j].s, "sgrd")
    requires layers[k].PyStr? && EndsWith(layers[k].s, "sdat")
    ensures ExportRasterElems(st, name, layers, k)
      == Outcome(st.(attrs := st.attrs[name := Join(';', Texts(layers)[k := DropLast4(st.attrs[name]) + "sgrd"])]), None)
  {
    var f := DropLast4(st.attrs[name]) + "sgrd";
    var layers' := layers[k := PyStr(f)];
    var items := Texts(layers)[k := f];
    TextsUpdate(layers, k, f);
    RasterStep(st, name, layers, k, layers', items);
    var st' := st.(attrs := st.attrs[name := Join(';', items)]);
    if k + 1 < |layers| {
      NativeTail(st', name, layers', k + 1);
      assert Texts(layers') == items;
      JoinedTwice(st, name, Join(';', items));
    }
  }

  /** Setting the same attribute twice to the same text is setting it once. */
  lemma JoinedTwice(st: ExportState, name: string, v: string)
    ensures var st' := st.(attrs := st.attrs[name := v]); st'.(attrs := st'.attrs[name := v]) == st'
  {
    var st' := st.(attrs := st.attrs[name := v]);
    assert st'.attrs[name := v] == st'.attrs;
  }

  /** One `.sgrd` element only sets the `value` attribute to the joined list. */
  lemma SgrdStep(st: ExportState, name: string, layers: seq<Value>, i: nat)
    requires i < |layers|
    requires forall j :: 0 <= j < |layers| ==> layers[j].PyStr?
    requires EndsWith(layers[i].s, "sgrd")
    ensures ExportRasterElems(st, name, layers, i)
      == ExportRasterElems(st.(attrs := st.attrs[name := Join(';', Texts(layers))]), name, layers, i + 1)
  {
    var f := layers[i].s;
    assert f[|f| - 4..] == "sgrd";
    assert !EndsWith(f, "sdat");
  }

  /** A run of `.sgrd` elements from `i` to `k` only sets the `value` attribute to the joined list. */
  lemma {:induction false} SgrdPrefix(st: ExportState, name: string, layers: seq<Value>, i: nat, k: nat)
    requires i < k < |layers|
    requires forall j :: 0 <= j < |layers| ==> layers[j].PyStr?
    requires forall j :: i <= j < k ==> EndsWith(layers[j].s, "sgrd")
    ensures ExportRasterElems(st, name, layers, i) == ExportRasterElems(st.(attrs := st.attrs[name := Join(';', Texts(layers))]), name, layers, k)
    decreases k - i
  {
    var st' := st.(attrs := st.attrs[name := Join(';', Texts(layers))]);
    SgrdStep(st, name, layers, i);
    if i + 1 < k {
      SgrdPrefix(st', name, layers, i + 1, k);
      JoinedTwice(st, name, Join(';', Texts(layers)));
    }
  }

  /** From `i` on, a list of `.sgrd` elements only sets the `value` attribute to the joined list. */
  lemma {:induction false} NativeTail(st: ExportState, name: string, layers: seq<Value>, i: nat)
    requires i < |layers|
    requires forall j :: 0 <= j < |layers| ==> layers[j].PyStr?
    requires forall j :: i <= j < |layers| ==> EndsWith(layers[j].s, "sgrd")
    ensures ExportRasterElems(st, name, layers, i) == Outcome(st.(attrs := st.attrs[name := Join(';', Texts(layers))]), None)
    decreases |layers| - i
  {
    var st' := st.(attrs := st.attrs[name := Join(';', Texts(layers))]);
    SgrdStep(st, name, layers, i);
    if i + 1 < |layers| {
      NativeTail(st', name, layers, i + 1);
      JoinedTwice(st, name, Join(';', Texts(layers)));
    }
  }

  /** Step 1 only ever appends commands: the ones present before are kept, in order. */
  lemma {:induction false} CommandsOnlyGrow(o: Outcome, defs: seq<Param>, fw: Framework, onDisk: set<string>)
    ensures var r := ExportFrom(o, defs, fw, onDisk); |o.st.commands| <= |r.st.commands| && r.st.commands[..|o.st.commands|] == o.st.commands
    decreases |defs|
  {
    if o.failure.None? && defs != [] {
      var o1 := ExportParam(defs[0], o.st, fw, onDisk);
      ParamCommandsGrow(defs[0], o.st, fw, onDisk);
      CommandsOnlyGrow(o1, defs[1..], fw, onDisk);
    }
  }

  lemma ParamCommandsGrow(p: Param, st: ExportState, fw: Framework, onDisk: set<string>)
    ensures var o := ExportParam(p, st, fw, onDisk);
      |st.commands| <= |o.st.commands| <= |st.commands| + 1 && o.st.commands[..|st.commands|] == st.commands
  {
    if Supplied(st.values, p.name) && p.kind.MultipleLayers? {
      match fw.asLayerList(st.values[p.name])
      case None =>
      case Some(layers) =>
        if |layers| > 0 {
          if p.kind.layerType == TypeRaster {
            RasterElemsKeepCommands(st, p.name, layers, 0);
          } else {
            VectorElemsKeepCommands(st, p.name, layers, 0, fw);
          }
        }
    }
  }

  lemma {:induction false} RasterElemsKeepCommands(st: ExportState, name: string, layers: seq<Value>, i: nat)
    ensures ExportRasterElems(st, name, layers, i).st.commands == st.commands
    ensures ExportRasterElems(st, name, layers, i).st.run == st.run
    decreases |layers| - i
  {
    if i < |layers| && NativeGrid(layers[i]) {
      var f := layers[i].s;
      if !EndsWith(f, "sdat") || name in st.attrs {
        var layers' := if EndsWith(f, "sdat") then layers[i := PyStr(DropLast4(st.attrs[name]) + "sgrd")] else layers;
        match TextItems(layers')
        case None =>
        case Some(items) =>
          var st' := st.(attrs := st.attrs[name := Join(';', items)]);
          assert ExportRasterElems(st, name, layers, i) == ExportRasterElems(st', name, layers', i + 1);
          RasterElemsKeepCommands(st', name, layers', i + 1);
      }
    }
  }

  lemma {:induction false} VectorElemsKeepCommands(st: ExportState, name: string, layers: seq<Value>, i: nat, fw: Framework)
    ensures ExportVectorElems(st, name, layers, i, fw).st.commands == st.commands
    decreases |layers| - i
  {
    if i < |layers| {
      var v := layers[i];
      var st1 := st.(crs := CaptureCrs(st.crs, v, fw));
      var path := fw.compatiblePath(v);
      if path != "" {
        if name !in st1.run.entries {
          VectorElemsKeepCommands(st1.(run := st1.run.Put(name, Many([path]))), name, layers, i + 1, fw);
        } else if st1.run.entries[name].Many? {
          var ps := st1.run.entries[name].paths;
          VectorElemsKeepCommands(st1.(run := st1.run.Put(name, Many(ps + [path]))), name, layers, i + 1, fw);
        }
      }
    }
  }

  /** Step 1 keeps `exportedLayers` a dict: every key it files is listed in insertion order. */
  lemma {:induction false} ExportFromKeepsKeys(o: Outcome, defs: seq<Param>, fw: Framework, onDisk: set<string>)
    requires ValidExports(o.st.run)
    ensures ValidExports(ExportFrom(o, defs, fw, onDisk).st.run)
    decreases |defs|
  {
    if o.failure.None? && defs != [] {
      ParamKeepsKeys(defs[0], o.st, fw, onDisk);
      ExportFromKeepsKeys(ExportParam(defs[0], o.st, fw, onDisk), defs[1..], fw, onDisk);
    }
  }

  lemma ParamKeepsKeys(p: Param, st: ExportState, fw: Framework, onDisk: set<string>)
    requires ValidExports(st.run)
    ensures ValidExports(ExportParam(p, st, fw, onDisk).st.run)
  {
    if Supplied(st.values, p.name) && p.kind.MultipleLayers? {
      match fw.asLayerList(st.values[p.name])
      case None =>
      case Some(layers) =>
        if |layers| > 0 {
          if p.kind.layerType == TypeRaster {
            RasterElemsKeepCommands(st, p.name, layers, 0);
          } else {
            VectorElemsKeepKeys(st, p.name, layers, 0, fw);
          }
        }
    }
  }

  lemma {:induction false} VectorElemsKeepKeys(st: ExportState, name: string, layers: seq<Value>, i: nat, fw: Framework)
    requires ValidExports(st.run)
    ensures ValidExports(ExportVectorElems(st, name, layers, i, fw).st.run)
    decreases |layers| - i
  {
    if i < |layers| {
      var v := layers[i];
      var st1 := st.(crs := CaptureCrs(st.crs, v, fw));
      var path := fw.compatiblePath(v);
      if path != "" {
        if name !in st1.run.entries {
          VectorElemsKeepKeys(st1.(run := st1.run.Put(name, Many([path]))), name, layers, i + 1, fw);
        } else if st1.run.entries[name].Many? {
          var ps := st1.run.entries[name].paths;
          VectorElemsKeepKeys(st1.(run := st1.run.Put(name, Many(ps + [path]))), name, layers, i + 1, fw);
        }
      }
    }
  }
}
