/** Reading an algorithm's description file (`defineCharacteristicsFromFile`, SagaAlgorithm.py:98-138):
    line 1 is `name` or `name|cmdname`, line 2 the group, then one directive per line up to the
    first blank line. The file is given as its lines; past the end every line reads as "". */
module Declaration {
  import opened Wrappers
  import opened Types
  import opened Text

  /** The name of the extent parameter that an `Extent` directive adds. */
  const OutputExtent: string := "OUTPUT_EXTENT"

  /** What the description file sets on the algorithm object. */
  datatype Description = Description(
    name: string,                      // self._name
    cmdName: string,                   // self.cmdname
    group: string,                     // self.undecorated_group
    hardcoded: seq<string>,            // self.hardcoded_strings
    params: seq<Param>,                // self.params
    allowUnmatching: bool,             // self.allow_nonmatching_grid_extents
    extentNames: Option<seq<string>>)  // self.extentParamNames, None while never set

  /** `lines.readline().strip('\n').strip()` for line `i`; "" past the end of the file. */
  function LineAt(lines: seq<string>, i: nat): string {
    if i < |lines| then Strip(lines[i]) else ""
  }

  /** Lower-casing and filtering of the decorated name (lines 114-117). */
  function AlgorithmName(s: string): (r: string)
    ensures forall i :: 0 <= i < |r| ==> IsValidChar(r[i]) && !('A' <= r[i] <= 'Z')
  {
    LowerHasNoCapitals(s);
    KeepValid(Lower(s))
  }

  datatype Names = Names(name: string, cmdName: string)

  /** Lines 101-111: the part before '|' names the algorithm, the part after it is the SAGA
      command; without '|' the whole line is both. `decorate` is decoratedAlgorithmName. */
  function HeaderNames(first: string, decorate: string -> string): Names {
    if '|' in first then
      var tokens := Split(first, '|');
      Names(AlgorithmName(decorate(tokens[0])), tokens[1])
    else Names(AlgorithmName(decorate(first)), first)
  }

  /** The SAGA command name is the text between the first '|' and the next one (or the end),
      and the whole first line when it has no '|'. */
  lemma CommandNameOfHeader(first: string, decorate: string -> string)
    ensures var n := HeaderNames(first, decorate);
      if '|' in first then
        '|' !in n.cmdName
        && exists pre, post :: SecondFieldAt(first, '|', pre, n.cmdName, post)
      else n.cmdName == first
  {
    if '|' in first {
      var n := HeaderNames(first, decorate);
      assert n.cmdName == Split(first, '|')[1];
      SecondField(first, '|', n.cmdName);
    }
  }

  /** How one directive line is read (lines 124-137). */
  datatype Directive = HardcodedLine(token: string) | ParameterLine | AllowUnmatchingLine | ExtentLine(names: seq<string>) | IgnoredLine

  function Classify(line: string): Directive {
    if StartsWith(line, "Hardcoded") then HardcodedLine(DropFirst(line, |"Hardcoded|"|))
    else if StartsWith(line, "QgsProcessingParameter") || StartsWith(line, "Parameter") then ParameterLine
    else if StartsWith(line, "AllowUnmatching") then AllowUnmatchingLine
    else if StartsWith(line, "Extent") then ExtentLine(Split(Strip(DropFirst(line, 6)), ' '))
    else IgnoredLine
  }

  /** One pass of the directive loop. `parse` is getParameterFromString. */
  function Apply(d: Description, line: string, parse: string -> Param): Description {
    match Classify(line)
    case HardcodedLine(token) => d.(hardcoded := d.hardcoded + [token])
    case ParameterLine => d.(params := d.params + [parse(line)])
    case AllowUnmatchingLine => d.(allowUnmatching := true)
    case ExtentLine(names) => d.(extentNames := Some(names), params := d.params + [Param(OutputExtent, Extent)])
    case IgnoredLine => d
  }

  /** A freshly constructed object, before the description file is read (lines 68-75). */
  const Blank: Description := Description("", "", "", [], [], false, None)

  /** Lines 100-120: the first two lines set the name, the SAGA command name and the group. */
  function WithHeader(d: Description, lines: seq<string>, decorate: string -> string): Description {
    var names := HeaderNames(LineAt(lines, 0), decorate);
    d.(name := names.name, cmdName := names.cmdName, group := LineAt(lines, 1))
  }

  /** The whole of `defineCharacteristicsFromFile`, on a fresh object. */
  function Parse(lines: seq<string>, decorate: string -> string, parse: string -> Param): Description {
    ApplyAll(WithHeader(Blank, lines, decorate), DirectiveLines(lines, 2), parse)
  }

  /** The directive lines the loop reads: from line `i` up to, not including, the first blank one. */
  function DirectiveLines(lines: seq<string>, i: nat): (ds: seq<string>)
    ensures forall k :: 0 <= k < |ds| ==> ds[k] != ""
    decreases |lines| - i
  {
    var line := LineAt(lines, i);
    if line == "" then [] else [line] + DirectiveLines(lines, i + 1)
  }

  function ApplyAll(d: Description, ds: seq<string>, parse: string -> Param): Description
    decreases |ds|
  {
    if ds == [] then d else ApplyAll(Apply(d, ds[0], parse), ds[1..], parse)
  }

  /** The hardcoded tokens of a list of directive lines, in order. */
  function HardcodedTokens(ds: seq<string>): seq<string> {
    if ds == [] then []
    else (match Classify(ds[0]) case HardcodedLine(t) => [t] case _ => []) + HardcodedTokens(ds[1..])
  }

  /** The definitions the directive lines add, in file order: `parse(line)` for a parameter
      line and one `OUTPUT_EXTENT` extent definition for each `Extent` line. */
  function ParamsOf(ds: seq<string>, parse: string -> Param): seq<Param> {
    if ds == [] then []
    else
      (match Classify(ds[0])
       case ParameterLine => [parse(ds[0])]
       case ExtentLine(_) => [Param(OutputExtent, Extent)]
       case _ => []) + ParamsOf(ds[1..], parse)
  }

  /** The names of the last `Extent` line, or None when there is none. */
  function LastExtent(ds: seq<string>): (r: Option<seq<string>>)
    ensures r.None? <==> forall k :: 0 <= k < |ds| ==> !Classify(ds[k]).ExtentLine?
    ensures r.Some? ==> exists k :: (0 <= k < |ds| && Classify(ds[k]) == ExtentLine(r.value)
      && forall m :: k < m < |ds| ==> !Classify(ds[m]).ExtentLine?)
  {
    if ds == [] then None
    else
      var rest := LastExtent(ds[1..]);
      assert forall k :: 1 <= k < |ds| ==> ds[k] == ds[1..][k - 1];
      if rest.Some? then rest
      else match Classify(ds[0])
        case ExtentLine(names) => Some(names)
        case _ => None
  }

  /** One pass of the directive loop: a non-blank line `i` is applied, then the loop goes on. */
  lemma DirectiveStep(lines: seq<string>, i: nat, d: Description, parse: string -> Param)
    requires LineAt(lines, i) != ""
    ensures ApplyAll(d, DirectiveLines(lines, i), parse) == ApplyAll(Apply(d, LineAt(lines, i), parse), DirectiveLines(lines, i + 1), parse)
  {
    var ds := DirectiveLines(lines, i);
    assert ds == [LineAt(lines, i)] + DirectiveLines(lines, i + 1);
    assert ds[0] == LineAt(lines, i) && ds[1..] == DirectiveLines(lines, i + 1);
  }

  lemma {:induction false} ApplyAllHardcoded(d: Description, ds: seq<string>, parse: string -> Param)
    ensures ApplyAll(d, ds, parse).hardcoded == d.hardcoded + HardcodedTokens(ds)
    decreases |ds|
  {
    if ds != [] {
      ApplyAllHardcoded(Apply(d, ds[0], parse), ds[1..], parse);
    }
  }

  lemma {:induction false} ApplyAllParams(d: Description, ds: seq<string>, parse: string -> Param)
    ensures ApplyAll(d, ds, parse).params == d.params + ParamsOf(ds, parse)
    decreases |ds|
  {
    if ds != [] {
      ApplyAllParams(Apply(d, ds[0], parse), ds[1..], parse);
    }
  }

  lemma {:induction false} ApplyAllExtent(d: Description, ds: seq<string>, parse: string -> Param)
    ensures ApplyAll(d, ds, parse).extentNames == if LastExtent(ds).Some? then LastExtent(ds) else d.extentNames
    decreases |ds|
  {
    if ds != [] {
      ApplyAllExtent(Apply(d, ds[0], parse), ds[1..], parse);
    }
  }

  lemma {:induction false} ApplyAllAllow(d: Description, ds: seq<string>, parse: string -> Param)
    ensures ApplyAll(d, ds, parse).allowUnmatching
      <==> d.allowUnmatching || exists k :: 0 <= k < |ds| && Classify(ds[k]) == AllowUnmatchingLine
    decreases |ds|
  {
    if ds != [] {
      ApplyAllAllow(Apply(d, ds[0], parse), ds[1..], parse);
      if exists k :: 0 <= k < |ds| && Classify(ds[k]) == AllowUnmatchingLine {
        var k :| 0 <= k < |ds| && Classify(ds[k]) == AllowUnmatchingLine;
        if k > 0 {
          assert Classify(ds[1..][k - 1]) == AllowUnmatchingLine;
        }
      }
      if exists k :: 0 <= k < |ds[1..]| && Classify(ds[1..][k]) == AllowUnmatchingLine {
        var k :| 0 <= k < |ds[1..]| && Classify(ds[1..][k]) == AllowUnmatchingLine;
        assert Classify(ds[k + 1]) == AllowUnmatchingLine;
      }
    }
  }

  /** The hardcoded tokens are the texts after `Hardcoded|` of the directive lines that start
      with `Hardcoded`, in file order. */
  lemma ParseHardcoded(lines: seq<string>, decorate: string -> string, parse: string -> Param)
    ensures Parse(lines, decorate, parse).hardcoded == HardcodedTokens(DirectiveLines(lines, 2))
  {
    var d := WithHeader(Blank, lines, decorate);
    ApplyAllHardcoded(d, DirectiveLines(lines, 2), parse);
  }

  /** Mismatched grids are allowed exactly when some directive line is read as `AllowUnmatching`. */
  lemma ParseAllowUnmatching(lines: seq<string>, decorate: string -> string, parse: string -> Param)
    ensures var ds := DirectiveLines(lines, 2);
      Parse(lines, decorate, parse).allowUnmatching <==> exists k :: 0 <= k < |ds| && Classify(ds[k]) == AllowUnmatchingLine
  {
    var d := WithHeader(Blank, lines, decorate);
    var ds := DirectiveLines(lines, 2);
    assert Parse(lines, decorate, parse) == ApplyAll(d, ds, parse);
    assert !d.allowUnmatching;
    ApplyAllAllow(d, ds, parse);
  }

  /** The definitions are, in file order, `parse(line)` for each parameter line and one
      `OUTPUT_EXTENT` extent definition for each `Extent` line. */
  lemma ParseParams(lines: seq<string>, decorate: string -> string, parse: string -> Param)
    ensures Parse(lines, decorate, parse).params == ParamsOf(DirectiveLines(lines, 2), parse)
  {
    var d := WithHeader(Blank, lines, decorate);
    ApplyAllParams(d, DirectiveLines(lines, 2), parse);
  }

  /** The extent names are those of the last `Extent` line, which overwrites any earlier one,
      and stay unset when there is no `Extent` line. */
  lemma ParseExtent(lines: seq<string>, decorate: string -> string, parse: string -> Param)
    ensures var ds := DirectiveLines(lines, 2);
      var r := Parse(lines, decorate, parse).extentNames;
      (r.None? <==> forall k :: 0 <= k < |ds| ==> !Classify(ds[k]).ExtentLine?)
      && (r.Some? ==> exists k :: (0 <= k < |ds| && Classify(ds[k]) == ExtentLine(r.value)
                       && forall m :: k < m < |ds| ==> !Classify(ds[m]).ExtentLine?))
  {
    var d := WithHeader(Blank, lines, decorate);
    ApplyAllExtent(d, DirectiveLines(lines, 2), parse);
  }

  /** Two `Extent` lines add two extent definitions, and the second line's names win. */
  lemma TwoExtentLines(first: string, second: string, parse: string -> Param)
    requires Classify(first).ExtentLine? && Classify(second).ExtentLine?
    ensures ParamsOf([first, second], parse) == [Param(OutputExtent, Extent), Param(OutputExtent, Extent)]
    ensures LastExtent([first, second]) == Some(Classify(second).names)
  {
    var ext := Param(OutputExtent, Extent);
    assert [second][1..] == [];
    assert ParamsOf([second], parse) == [ext];
    assert [first, second][1..] == [second];
    assert ParamsOf([first, second], parse) == [ext] + [ext];
  }

  /** The algorithm name is the decorated first part of line 1, lower-cased and filtered, so it
      holds only `[a-z0-9:]`. */
  lemma ParseName(lines: seq<string>, decorate: string -> string, parse: string -> Param)
    ensures var first := LineAt(lines, 0);
      var r := Parse(lines, decorate, parse).name;
      r == KeepValid(Lower(decorate(if '|' in first then Split(first, '|')[0] else first)))
      && forall i :: 0 <= i < |r| ==> IsValidChar(r[i]) && !('A' <= r[i] <= 'Z')
  {
    var d := WithHeader(Blank, lines, decorate);
    ApplyAllKeepsHeader(d, DirectiveLines(lines, 2), parse);
  }

  lemma {:induction false} ApplyAllKeepsHeader(d: Description, ds: seq<string>, parse: string -> Param)
    ensures var r := ApplyAll(d, ds, parse); r.name == d.name && r.cmdName == d.cmdName && r.group == d.group
    decreases |ds|
  {
    if ds != [] {
      ApplyAllKeepsHeader(Apply(d, ds[0], parse), ds[1..], parse);
    }
  }

  lemma {:induction false} DirectiveLinesAgree(a: seq<string>, b: seq<string>, i: nat, k: nat)
    requires i <= k
    requires forall j :: i <= j <= k ==> LineAt(a, j) == LineAt(b, j)
    requires LineAt(a, k) == ""
    ensures DirectiveLines(a, i) == DirectiveLines(b, i)
    decreases k - i
  {
    assert LineAt(a, i) == LineAt(b, i);
    if LineAt(a, i) != "" {
      DirectiveLinesAgree(a, b, i + 1, k);
    }
  }

  /** Nothing after the first blank directive line is read: whatever follows it, the result is
      that of the file cut after the blank line. */
  lemma ParseStopsAtBlank(lines: seq<string>, k: nat, rest: seq<string>, decorate: string -> string, parse: string -> Param)
    requires 2 <= k < |lines| && LineAt(lines, k) == ""
    ensures Parse(lines[..k + 1] + rest, decorate, parse) == Parse(lines[..k + 1], decorate, parse)
  {
    var a := lines[..k + 1] + rest;
    var b := lines[..k + 1];
    assert forall j :: 0 <= j <= k ==> LineAt(a, j) == LineAt(b, j);
    DirectiveLinesAgree(a, b, 2, k);
  }
}
