/** The pre-flight check `checkParameterValues` (SagaAlgorithm.py:370-398): no input raster may
    have more than one band and, unless mismatched grids are allowed, every input raster must
    lie on the same grid (extent, height and width). */
module Validation {
  import opened Wrappers
  import opened Types
  import opened Text

  /** The files a definition contributes (lines 376-382). A raster input gives its value, a raster
      multi-layer input the items of its value (the characters, for a string), anything else
      nothing. A missing key raises KeyError; a value that cannot be iterated, TypeError. */
  function FilesOf(p: Param, values: map<string, Value>): Result<seq<Value>> {
    match p.kind
    case RasterLayer =>
      if p.name !in values then Err(MissingKey(p.name)) else Ok([values[p.name]])
    case MultipleLayers(TypeRaster) =>
      if p.name !in values then Err(MissingKey(p.name))
      else (match values[p.name]
        case PyNone => Ok([])
        case PyStr(s) => Ok(seq(|s|, i requires 0 <= i < |s| => PyStr([s[i]])))
        case PyList(items) => Ok(items)
        case PyOther(_) => Err(NotIterable(p.name)))
    case _ => Ok([])
  }

  /** Where the scan stands: still going with the first grid seen (if any), or returned early. */
  datatype Scan = Scanning(grid: Option<Grid>) | Rejected(reason: Reason)

  /** One file (lines 384-396): unresolved files are skipped. */
  function ScanFile(st: Scan, f: Value, allow: bool, fw: Framework): Scan {
    if st.Rejected? then st
    else match fw.layerInfo(f)
      case None => st
      case Some(l) =>
        if l.bandCount > 1 then Rejected(MultibandLayer(l.name))
        else if allow then st
        else (match st.grid
          case None => Scanning(Some(GridOf(l)))
          case Some(g) => if g != GridOf(l) then Rejected(GridMismatch) else st)
  }

  function ScanFiles(st: Scan, files: seq<Value>, allow: bool, fw: Framework): Scan
    decreases |files|
  {
    if files == [] then st else ScanFiles(ScanFile(st, files[0], allow, fw), files[1..], allow, fw)
  }

  /** The loop over the definitions from scan state `st`; a definition's files are only looked
      up while the scan is still going. */
  function ScanDefs(st: Scan, defs: seq<Param>, values: map<string, Value>, allow: bool, fw: Framework): Result<Scan>
    decreases |defs|
  {
    if st.Rejected? || defs == [] then Ok(st)
    else match FilesOf(defs[0], values)
      case Err(e) => Err(e)
      case Ok(fs) => ScanDefs(ScanFiles(st, fs, allow, fw), defs[1..], values, allow, fw)
  }

  /** The whole check: a rejection, or else the base class's verdict. */
  function Check(defs: seq<Param>, values: map<string, Value>, allow: bool, fw: Framework): Result<Verdict> {
    match ScanDefs(Scanning(None), defs, values, allow, fw)
    case Err(e) => Err(e)
    case Ok(Rejected(r)) => Ok(Verdict(false, r))
    case Ok(Scanning(_)) => Ok(fw.baseCheck)
  }

  /** The files of all definitions, in order. */
  function AllFiles(defs: seq<Param>, values: map<string, Value>): Result<seq<Value>>
    decreases |defs|
  {
    if defs == [] then Ok([])
    else match FilesOf(defs[0], values)
      case Err(e) => Err(e)
      case Ok(fs) =>
        (match AllFiles(defs[1..], values)
         case Err(e) => Err(e)
         case Ok(rest) => Ok(fs + rest))
  }

  lemma {:induction false} ScanFilesAppend(st: Scan, a: seq<Value>, b: seq<Value>, allow: bool, fw: Framework)
    ensures ScanFiles(st, a + b, allow, fw) == ScanFiles(ScanFiles(st, a, allow, fw), b, allow, fw)
    decreases |a|
  {
    if a != [] {
      assert (a + b)[0] == a[0];
      assert (a + b)[1..] == a[1..] + b;
      ScanFilesAppend(ScanFile(st, a[0], allow, fw), a[1..], b, allow, fw);
    } else {
      assert a + b == b;
    }
  }

  lemma {:induction false} ScanFilesRejected(st: Scan, files: seq<Value>, allow: bool, fw: Framework)
    requires st.Rejected?
    ensures ScanFiles(st, files, allow, fw) == st
    decreases |files|
  {
    if files != [] {
      ScanFilesRejected(st, files[1..], allow, fw);
    }
  }

  /** Scanning definition by definition is scanning the flat list of their files. */
  lemma {:induction false} ScanDefsFlat(st: Scan, defs: seq<Param>, values: map<string, Value>, allow: bool, fw: Framework)
    requires AllFiles(defs, values).Ok?
    ensures ScanDefs(st, defs, values, allow, fw) == Ok(ScanFiles(st, AllFiles(defs, values).value, allow, fw))
    decreases |defs|
  {
    if defs == [] {
    } else if st.Rejected? {
      ScanFilesRejected(st, AllFiles(defs, values).value, allow, fw);
    } else {
      var fs := FilesOf(defs[0], values).value;
      var rest := AllFiles(defs[1..], values).value;
      ScanDefsFlat(ScanFiles(st, fs, allow, fw), defs[1..], values, allow, fw);
      ScanFilesAppend(st, fs, rest, allow, fw);
    }
  }

  predicate Resolved(f: Value, fw: Framework) {
    fw.layerInfo(f).Some?
  }

  /** The declarative condition for the check to let the files through from grid `g`: every
      resolved layer has at most one band and, unless mismatches are allowed, all resolved layers
      share one grid, equal to `g` when one was already seen. */
  predicate Passes(g: Option<Grid>, files: seq<Value>, allow: bool, fw: Framework) {
    (forall i :: 0 <= i < |files| && Resolved(files[i], fw) ==> fw.layerInfo(files[i]).value.bandCount <= 1)
    && (!allow ==> forall i, j :: 0 <= i < |files| && 0 <= j < |files| && Resolved(files[i], fw) && Resolved(files[j], fw) ==>
          GridOf(fw.layerInfo(files[i]).value) == GridOf(fw.layerInfo(files[j]).value))
    && (!allow && g.Some? ==> forall i :: 0 <= i < |files| && Resolved(files[i], fw) ==> GridOf(fw.layerInfo(files[i]).value) == g.value)
  }

  lemma {:induction false} PassesStep(g: Option<Grid>, files: seq<Value>, allow: bool, fw: Framework)
    requires files != [] && !allow
    requires Resolved(files[0], fw) && fw.layerInfo(files[0]).value.bandCount <= 1
    requires g.None? || g.value == GridOf(fw.layerInfo(files[0]).value)
    ensures Passes(g, files, allow, fw) <==> Passes(Some(GridOf(fw.layerInfo(files[0]).value)), files[1..], allow, fw)
  {
    var g0 := GridOf(fw.layerInfo(files[0]).value);
    if Passes(Some(g0), files[1..], allow, fw) {
      forall i | 0 <= i < |files| && Resolved(files[i], fw) ensures GridOf(fw.layerInfo(files[i]).value) == g0 {
        if i > 0 {
          assert files[i] == files[1..][i - 1];
        }
      }
    }
    if Passes(g, files, allow, fw) {
      forall i | 0 <= i < |files[1..]| && Resolved(files[1..][i], fw) ensures GridOf(fw.layerInfo(files[1..][i]).value) == g0 {
        assert files[1..][i] == files[i + 1];
      }
    }
  }

  lemma {:induction false} PassesSkip(g: Option<Grid>, files: seq<Value>, allow: bool, fw: Framework)
    requires files != []
    requires !Resolved(files[0], fw) || (allow && fw.layerInfo(files[0]).value.bandCount <= 1)
    ensures Passes(g, files, allow, fw) <==> Passes(g, files[1..], allow, fw)
  {
    forall i | 0 < i < |files| ensures files[i] == files[1..][i - 1] {
    }
    forall i | 0 <= i < |files[1..]| ensures files[1..][i] == files[i + 1] {
    }
  }

  /** The scan runs to the end exactly when the files pass, from any grid already seen. */
  lemma {:induction false} ScanFilesPasses(g: Option<Grid>, files: seq<Value>, allow: bool, fw: Framework)
    ensures ScanFiles(Scanning(g), files, allow, fw).Scanning? <==> Passes(g, files, allow, fw)
    decreases |files|
  {
    if files == [] {
    } else {
      var f := files[0];
      var next := ScanFile(Scanning(g), f, allow, fw);
      if !Resolved(f, fw) {
        ScanFilesPasses(g, files[1..], allow, fw);
        PassesSkip(g, files, allow, fw);
      } else {
        var l := fw.layerInfo(f).value;
        if l.bandCount > 1 {
          ScanFilesRejected(next, files[1..], allow, fw);
        } else if allow {
          ScanFilesPasses(g, files[1..], allow, fw);
          PassesSkip(g, files, allow, fw);
        } else if g.Some? && g.value != GridOf(l) {
          ScanFilesRejected(next, files[1..], allow, fw);
        } else {
          ScanFilesPasses(Some(GridOf(l)), files[1..], allow, fw);
          PassesStep(g, files, allow, fw);
        }
      }
    }
  }

  /** When every definition's files can be looked up, the check returns the base class's verdict
      exactly when no input raster has several bands and, unless mismatched grids are allowed,
      all input rasters share one grid. */
  lemma CheckAccepts(defs: seq<Param>, values: map<string, Value>, allow: bool, fw: Framework)
    requires AllFiles(defs, values).Ok?
    ensures ScanDefs(Scanning(None), defs, values, allow, fw).Ok?
    ensures ScanDefs(Scanning(None), defs, values, allow, fw).value.Scanning? <==> Passes(None, AllFiles(defs, values).value, allow, fw)
  {
    ScanDefsFlat(Scanning(None), defs, values, allow, fw);
    ScanFilesPasses(None, AllFiles(defs, values).value, allow, fw);
  }

  /** Some resolved file is a layer named `n` with more than one band. */
  predicate MultibandAmong(files: seq<Value>, n: string, fw: Framework) {
    exists i :: 0 <= i < |files| && Resolved(files[i], fw) && fw.layerInfo(files[i]).value.bandCount > 1 && fw.layerInfo(files[i]).value.name == n
  }

  /** A multiband rejection names a layer that has more than one band. */
  lemma {:induction false} MultibandNamesLayer(st: Scan, files: seq<Value>, allow: bool, fw: Framework, n: string)
    requires st.Scanning?
    requires ScanFiles(st, files, allow, fw) == Rejected(MultibandLayer(n))
    ensures MultibandAmong(files, n, fw)
    decreases |files|
  {
    var next := ScanFile(st, files[0], allow, fw);
    if next.Rejected? {
      ScanFilesRejected(next, files[1..], allow, fw);
      assert Resolved(files[0], fw);
    } else {
      MultibandNamesLayer(next, files[1..], allow, fw, n);
      var i :| 0 <= i < |files[1..]| && Resolved(files[1..][i], fw)
        && fw.layerInfo(files[1..][i]).value.bandCount > 1 && fw.layerInfo(files[1..][i]).value.name == n;
      assert files[i + 1] == files[1..][i];
    }
  }

  /** With `AllowUnmatching` the check never rejects for mismatched grids. */
  lemma {:induction false} AllowedNeverMismatch(st: Scan, files: seq<Value>, fw: Framework)
    requires st.Scanning?
    ensures ScanFiles(st, files, true, fw) != Rejected(GridMismatch)
    decreases |files|
  {
    if files != [] {
      var next := ScanFile(st, files[0], true, fw);
      if next.Rejected? {
        ScanFilesRejected(next, files[1..], true, fw);
      } else {
        AllowedNeverMismatch(next, files[1..], fw);
      }
    }
  }

  /** Scanning two lists of definitions is scanning the first, then the second from where the
      first left off. */
  lemma {:induction false} ScanDefsAppend(st: Scan, a: seq<Param>, b: seq<Param>, values: map<string, Value>, allow: bool, fw: Framework)
    ensures ScanDefs(st, a + b, values, allow, fw)
      == match ScanDefs(st, a, values, allow, fw) case Err(e) => Err(e) case Ok(s) => ScanDefs(s, b, values, allow, fw)
    decreases |a|
  {
    if a == [] {
      assert a + b == b;
    } else if st.Rejected? {
    } else {
      assert (a + b)[0] == a[0] && (a + b)[1..] == a[1..] + b;
      match FilesOf(a[0], values)
      case Err(_) =>
      case Ok(fs) => ScanDefsAppend(ScanFiles(st, fs, allow, fw), a[1..], b, values, allow, fw);
    }
  }

  /** A raster input or raster multi-layer input absent from `parameters` makes the check raise
      KeyError (lines 379 and 382), even when it is optional, once the definitions before it have
      been scanned without a rejection. */
  lemma MissingRasterRaises(defs: seq<Param>, k: nat, values: map<string, Value>, allow: bool, fw: Framework)
    requires k < |defs| && defs[k].name !in values
    requires defs[k].kind == RasterLayer || defs[k].kind == MultipleLayers(TypeRaster)
    requires ScanDefs(Scanning(None), defs[..k], values, allow, fw).Ok?
    requires ScanDefs(Scanning(None), defs[..k], values, allow, fw).value.Scanning?
    ensures Check(defs, values, allow, fw) == Err(MissingKey(defs[k].name))
  {
    assert defs == defs[..k] + defs[k..];
    ScanDefsAppend(Scanning(None), defs[..k], defs[k..], values, allow, fw);
    assert defs[k..][0] == defs[k];
  }

  /** A string given as a raster multi-layer input is iterated at line 384 one character at a
      time: each character is looked up as a layer of its own. */
  lemma StringFilesAreChars(p: Param, values: map<string, Value>, s: string)
    requires p.kind == MultipleLayers(TypeRaster) && p.name in values && values[p.name] == PyStr(s)
    ensures FilesOf(p, values).Ok?
    ensures var fs := FilesOf(p, values).value;
      |fs| == |s| && forall i :: 0 <= i < |s| ==> fs[i] == PyStr([s[i]])
  {
  }
}
