/** The mapping builder: turns an already-parsed input file into the
    resolved settings and the ordered run-name -> accession dictionary. */
module InputFile {
  import opened Results
  import opened Text
  import opened Decimal
  import opened OrderedMaps

  /** The options of the `[Config]` section; `None` when an option, or the
      whole section, is absent. */
  datatype ConfigSection = ConfigSection(
    ranges: Option<string>,
    prefix: Option<string>,
    prefetchPath: Option<string>,
    fqdumpPath: Option<string>,
    maxDwSize: Option<string>)

  /** An input file after INI parsing: the `[Config]` options and the
      `[SRR_code]` (name, value) pairs in file order, `None` when that
      section is absent. */
  datatype IniFile = IniFile(config: ConfigSection, srrCode: Option<seq<(string, string)>>)

  /** The built-in defaults `PREFIX`, `PREFETCH`, `FQDUMP`, `MAX_DW_SIZE`. */
  datatype Defaults = Defaults(prefix: string, prefetch: string, fqdump: string, maxDwSize: string)

  /** The returned dictionary: keys `prefetch_exe`, `fqdump_exe`,
      `max_dw_size` and `sra_dict`. */
  datatype Settings = Settings(
    prefetchExe: string,
    fqdumpExe: string,
    maxDwSize: string,
    sraDict: seq<(string, string)>)

  /** The conditions on which the builder stops the program. */
  datatype ParseError =
    | MissingSrrCode                              // no [SRR_code] section, or an empty one
    | NotAnInteger(key: string, token: string)    // `int(token)` raises ValueError
    | WrongRangeArity(key: string, found: nat)    // not exactly two numbers

  /** Range mode is on only for the exact text "True". */
  predicate RangesEnabled(c: ConfigSection) {
    c.ranges == Some("True")
  }

  /** The configured value of an option, or the default when it is absent. */
  function OptionOr(o: Option<string>, default: string): string {
    match o
    case Some(s) => s
    case None => default
  }

  /** The prefix every accession starts with: `[Config] prefix`, or the
      default. */
  function ResolvedPrefix(ini: IniFile, defaults: Defaults): string {
    OptionOr(ini.config.prefix, defaults.prefix)
  }

  /** The key of the `i`-th accession expanded from the range named `name`. */
  function RangeKey(name: string, i: nat): (k: string)
    ensures |k| > |name| + 1 && k[..|name| + 1] == name + "_"
    ensures IsDigits(k[|name| + 1..]) && DigitsValue(k[|name| + 1..]) == i
    ensures |k| > |name| + 2 ==> k[|name| + 1] != '0'
  {
    NatToDecimalValue(i);
    name + "_" + NatToDecimal(i)
  }

  /** The position of the first token `int` rejects; `|tokens|` if none. */
  function FirstBadToken(tokens: seq<string>): (i: nat)
    ensures i <= |tokens|
    ensures forall j :: 0 <= j < i ==> ParseInt(tokens[j]).Some?
    ensures i < |tokens| ==> ParseInt(tokens[i]).None?
    decreases |tokens|
  {
    if |tokens| == 0 || ParseInt(tokens[0]).None? then 0
    else
      var rest := FirstBadToken(tokens[1..]);
      assert forall j :: 1 <= j < |tokens| ==> tokens[j] == tokens[1..][j - 1];
      1 + rest
  }

  /** `[int(x) for x in tokens]`: the first token `int` rejects ends the list. */
  function ParseInts(key: string, tokens: seq<string>): (r: Result<seq<int>, ParseError>)
    ensures r.Ok? <==> FirstBadToken(tokens) == |tokens|
    ensures r.Ok? ==> |r.value| == |tokens|
    ensures r.Ok? ==> forall i :: 0 <= i < |tokens| ==> ParseInt(tokens[i]) == Some(r.value[i])
    ensures r.Err? ==> r.error == NotAnInteger(key, tokens[FirstBadToken(tokens)])
    decreases |tokens|
  {
    if |tokens| == 0 then Ok([])
    else match ParseInt(tokens[0])
      case None => Err(NotAnInteger(key, tokens[0]))
      case Some(n) =>
        var rest :- ParseInts(key, tokens[1..]);
        assert forall i :: 1 <= i < |tokens| ==> tokens[i] == tokens[1..][i - 1];
        Ok([n] + rest)
  }

  /** The `(start, end)` pair a range value `start,end` denotes; an error
      names the entry it was found in. */
  function ParseRange(key: string, value: string): (r: Result<(int, int), ParseError>)
    ensures r.Err? ==> !r.error.MissingSrrCode? && r.error.key == key
  {
    var nums :- ParseInts(key, Split(value, ','));
    if |nums| != 2 then Err(WrongRangeArity(key, |nums|)) else Ok((nums[0], nums[1]))
  }

  /** A range value is accepted exactly when it splits at commas into two
      integers, and then denotes them. A token `int` rejects is reported
      before the count is looked at; otherwise the count is reported. */
  lemma ParseRangeSpec(key: string, value: string)
    ensures var tokens := Split(value, ',');
      var r := ParseRange(key, value);
      && (r.Ok? <==> |tokens| == 2 && ParseInt(tokens[0]).Some? && ParseInt(tokens[1]).Some?)
      && (r.Ok? ==> ParseInt(tokens[0]) == Some(r.value.0) && ParseInt(tokens[1]) == Some(r.value.1))
      && (FirstBadToken(tokens) < |tokens| ==> r == Err(NotAnInteger(key, tokens[FirstBadToken(tokens)])))
      && (FirstBadToken(tokens) == |tokens| != 2 ==> r == Err(WrongRangeArity(key, |tokens|)))
  {
    var tokens := Split(value, ',');
    if FirstBadToken(tokens) == |tokens| {
      assert forall i :: 0 <= i < |tokens| ==> ParseInt(tokens[i]).Some?;
    }
  }

  /** The entries `enumerate(range(v, end + 1), i)` produces for `name`. */
  function ExpandFrom(prefix: string, name: string, i: nat, v: int, end: int): (es: seq<(string, string)>)
    ensures |es| == if end < v then 0 else end - v + 1
    ensures forall j :: 0 <= j < |es| ==> es[j] == (RangeKey(name, i + j), prefix + IntToDecimal(v + j))
    decreases end - v + 1
  {
    if end < v then []
    else [(RangeKey(name, i), prefix + IntToDecimal(v))] + ExpandFrom(prefix, name, i + 1, v + 1, end)
  }

  /** The entries the range `start,end` of `name` produces: one per integer
      of the inclusive interval, none when it is decreasing. */
  function ExpandRange(prefix: string, name: string, start: int, end: int): (es: seq<(string, string)>)
    ensures |es| == if end < start then 0 else end - start + 1
    ensures forall i :: 0 <= i < |es| ==> es[i] == (RangeKey(name, i), prefix + IntToDecimal(start + i))
  {
    ExpandFrom(prefix, name, 0, start, end)
  }

  /** The position of the first `[SRR_code]` entry whose value is not a
      valid range; `|entries|` if there is none. */
  function FirstBadRange(entries: seq<(string, string)>): (j: nat)
    ensures j <= |entries|
    ensures forall j' :: 0 <= j' < j ==> ParseRange(entries[j'].0, entries[j'].1).Ok?
    ensures j < |entries| ==> ParseRange(entries[j].0, entries[j].1).Err?
    decreases |entries|
  {
    if |entries| == 0 || ParseRange(entries[0].0, entries[0].1).Err? then 0
    else
      var rest := FirstBadRange(entries[1..]);
      assert forall j :: 1 <= j < |entries| ==> entries[j] == entries[1..][j - 1];
      1 + rest
  }

  /** The assignments range mode performs, in `[SRR_code]` order; the first
      malformed value makes the whole call fail. */
  function RangeAssignments(prefix: string, entries: seq<(string, string)>): (r: Result<seq<(string, string)>, ParseError>)
    ensures r.Ok? <==> FirstBadRange(entries) == |entries|
    ensures r.Err? ==> (
      var j := FirstBadRange(entries);
      j < |entries| && ParseRange(entries[j].0, entries[j].1) == Err(r.error))
    decreases |entries|
  {
    if |entries| == 0 then Ok([])
    else
      var bounds :- ParseRange(entries[0].0, entries[0].1);
      var rest :- RangeAssignments(prefix, entries[1..]);
      Ok(ExpandRange(prefix, entries[0].0, bounds.0, bounds.1) + rest)
  }

  /** The assignments non-range mode performs: the prefix glued to each
      value, with no check that the value is a number. */
  function VerbatimAssignments(prefix: string, entries: seq<(string, string)>): (es: seq<(string, string)>)
    ensures |es| == |entries|
    ensures forall j :: 0 <= j < |entries| ==> es[j] == (entries[j].0, prefix + entries[j].1)
    decreases |entries|
  {
    if |entries| == 0 then []
    else [(entries[0].0, prefix + entries[0].1)] + VerbatimAssignments(prefix, entries[1..])
  }

  /** The `sra_dict[...] = ...` assignments the selected mode performs. */
  function Assignments(ranges: bool, prefix: string, entries: seq<(string, string)>): Result<seq<(string, string)>, ParseError> {
    if ranges then RangeAssignments(prefix, entries) else Ok(VerbatimAssignments(prefix, entries))
  }

  /** `parse_input_file`: the settings and the run mapping, or the error that
      stops the program. */
  function ParseInputFile(ini: IniFile, defaults: Defaults): (r: Result<Settings, ParseError>)
    ensures r == Err(MissingSrrCode) <==> ini.srrCode.None? || |ini.srrCode.value| == 0
    ensures r.Err? && !RangesEnabled(ini.config) ==> r == Err(MissingSrrCode)
  {
    var prefix := ResolvedPrefix(ini, defaults);
    var prefetch := OptionOr(ini.config.prefetchPath, defaults.prefetch);
    var fqdump := OptionOr(ini.config.fqdumpPath, defaults.fqdump);
    var maxDwSize := OptionOr(ini.config.maxDwSize, defaults.maxDwSize);
    if ini.srrCode.None? || |ini.srrCode.value| < 1 then Err(MissingSrrCode)
    else
      var entries := ini.srrCode.value;
      var assignments :- Assignments(RangesEnabled(ini.config), prefix, entries);
      Ok(Settings(prefetch, fqdump, maxDwSize, Assign(assignments)))
  }
}
