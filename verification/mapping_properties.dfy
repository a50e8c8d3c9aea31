/** What the mapping builder promises: resolved settings, the two error
    exits, the shape of the verbatim and the range-expanded mappings, and
    the uniqueness of generated run names. */
module MappingProperties {
  import opened Results
  import opened Text
  import opened Decimal
  import opened OrderedMaps
  import opened InputFile

  /** The part of a key before its last `_` (empty when there is none). */
  function KeyStem(k: string): string
    decreases |k|
  {
    if |k| == 0 then ""
    else if k[|k| - 1] == '_' then k[..|k| - 1]
    else KeyStem(k[..|k| - 1])
  }

  /** A name followed by `_` and an underscore-free suffix has that name
      as its stem. */
  lemma {:induction false} StemOfSuffixed(name: string, suffix: string)
    requires '_' !in suffix
    ensures KeyStem(name + "_" + suffix) == name
    decreases |suffix|
  {
    var k := name + "_" + suffix;
    if |suffix| == 0 {
      assert k[..|k| - 1] == name;
    } else {
      var shorter := suffix[..|suffix| - 1];
      assert k[|k| - 1] == suffix[|suffix| - 1];
      assert k[..|k| - 1] == name + "_" + shorter;
      assert forall c :: c in shorter ==> c in suffix;
      StemOfSuffixed(name, shorter);
    }
  }

  /** A generated key names its entry and its index: two generated keys are
      equal exactly when both the names and the indices are. */
  lemma RangeKeyInjective(n1: string, i1: nat, n2: string, i2: nat)
    ensures RangeKey(n1, i1) == RangeKey(n2, i2) <==> n1 == n2 && i1 == i2
  {
    var d1, d2 := NatToDecimal(i1), NatToDecimal(i2);
    if RangeKey(n1, i1) == RangeKey(n2, i2) {
      StemOfSuffixed(n1, d1);
      StemOfSuffixed(n2, d2);
      var k := RangeKey(n1, i1);
      assert d1 == k[|n1| + 1..];
      assert d2 == k[|n2| + 1..];
      NatToDecimalInjective(i1, i2);
    }
  }

  /** Every key range mode generates has the name of its `[SRR_code]`
      entry as its stem. */
  lemma {:induction false} RangeAssignmentStems(prefix: string, entries: seq<(string, string)>)
    requires RangeAssignments(prefix, entries).Ok?
    ensures forall p :: 0 <= p < |RangeAssignments(prefix, entries).value| ==>
      KeyStem(RangeAssignments(prefix, entries).value[p].0) in Keys(entries)
    decreases |entries|
  {
    if |entries| > 0 {
      var name := entries[0].0;
      var bounds := ParseRange(name, entries[0].1).value;
      var head := ExpandRange(prefix, name, bounds.0, bounds.1);
      var rest := RangeAssignments(prefix, entries[1..]).value;
      RangeAssignmentStems(prefix, entries[1..]);
      assert RangeAssignments(prefix, entries).value == head + rest;
      forall p | 0 <= p < |head|
        ensures KeyStem(head[p].0) == name
      {
        StemOfSuffixed(name, NatToDecimal(p));
      }
      assert forall m :: m in Keys(entries[1..]) ==> m in Keys(entries);
    }
  }

  /** With distinct `[SRR_code]` names, range mode never generates the same
      key twice: the index suffix separates keys of one entry, the stem keys
      of different entries. */
  lemma {:induction false} RangeKeysDistinct(prefix: string, entries: seq<(string, string)>)
    requires DistinctKeys(entries)
    requires RangeAssignments(prefix, entries).Ok?
    ensures DistinctKeys(RangeAssignments(prefix, entries).value)
    decreases |entries|
  {
    if |entries| > 0 {
      var name := entries[0].0;
      var bounds := ParseRange(name, entries[0].1).value;
      var head := ExpandRange(prefix, name, bounds.0, bounds.1);
      var rest := RangeAssignments(prefix, entries[1..]).value;
      var all := head + rest;
      assert RangeAssignments(prefix, entries).value == all;
      assert DistinctKeys(entries[1..]);
      RangeKeysDistinct(prefix, entries[1..]);
      RangeAssignmentStems(prefix, entries[1..]);
      assert name !in Keys(entries[1..]);
      forall i, j | 0 <= i < j < |all|
        ensures all[i].0 != all[j].0
      {
        if j < |head| {
          RangeKeyInjective(name, i, name, j);
        } else if i < |head| {
          StemOfSuffixed(name, NatToDecimal(i));
          assert all[j] == rest[j - |head|];
        } else {
          assert all[i] == rest[i - |head|] && all[j] == rest[j - |head|];
        }
      }
    }
  }

  /** Sequence concatenation is associative. Stated as a lemma because the
      same fact asserted inside `RangeAssignmentsAppend` drowns in that
      proof's context. */
  lemma ConcatAssociative<T>(x: seq<T>, y: seq<T>, z: seq<T>)
    ensures x + (y + z) == (x + y) + z
  {
  }

  /** One step of range mode: the first entry's expansion, then the rest. */
  lemma RangeAssignmentsCons(prefix: string, e: (string, string), rest: seq<(string, string)>)
    ensures var head := ParseRange(e.0, e.1);
      var tail := RangeAssignments(prefix, rest);
      var r := RangeAssignments(prefix, [e] + rest);
      && (head.Err? ==> r == Err(head.error))
      && (head.Ok? && tail.Err? ==> r == Err(tail.error))
      && (head.Ok? && tail.Ok? ==>
            r == Ok(ExpandRange(prefix, e.0, head.value.0, head.value.1) + tail.value))
  {
    assert ([e] + rest)[0] == e;
    assert ([e] + rest)[1..] == rest;
  }

  /** Range expansion of consecutive blocks of entries concatenates: the
      mapping is each entry's expansion, in `[SRR_code]` order. */
  lemma {:induction false} RangeAssignmentsAppend(prefix: string, a: seq<(string, string)>, b: seq<(string, string)>)
    ensures RangeAssignments(prefix, a + b).Ok?
        <==> RangeAssignments(prefix, a).Ok? && RangeAssignments(prefix, b).Ok?
    ensures RangeAssignments(prefix, a + b).Ok? ==>
      RangeAssignments(prefix, a + b).value
        == RangeAssignments(prefix, a).value + RangeAssignments(prefix, b).value
    decreases |a|
  {
    if |a| == 0 {
      assert a + b == b;
      assert RangeAssignments(prefix, a) == Ok([]);
    } else {
      var e, a' := a[0], a[1..];
      assert a == [e] + a';
      assert a + b == [e] + (a' + b);
      RangeAssignmentsAppend(prefix, a', b);
      RangeAssignmentsCons(prefix, e, a');
      RangeAssignmentsCons(prefix, e, a' + b);
      var head := ParseRange(e.0, e.1);
      if head.Ok? && RangeAssignments(prefix, a' + b).Ok? {
        var x := ExpandRange(prefix, e.0, head.value.0, head.value.1);
        var ra, rb := RangeAssignments(prefix, a').value, RangeAssignments(prefix, b).value;
        assert RangeAssignments(prefix, a + b).value == x + (ra + rb);
        assert RangeAssignments(prefix, a).value == x + ra;
        ConcatAssociative(x, ra, rb);
      }
    }
  }

  /** A single entry `name = start,end` contributes the expansion of its
      range, or fails with the error of its value. */
  lemma RangeAssignmentsSingle(prefix: string, name: string, value: string)
    ensures ParseRange(name, value).Err? ==>
      RangeAssignments(prefix, [(name, value)]) == Err(ParseRange(name, value).error)
    ensures ParseRange(name, value).Ok? ==>
      var (start, end) := ParseRange(name, value).value;
      RangeAssignments(prefix, [(name, value)]) == Ok(ExpandRange(prefix, name, start, end))
  {
    var es := [(name, value)];
    assert es[1..] == [];
    if ParseRange(name, value).Ok? {
      var (start, end) := ParseRange(name, value).value;
      assert ExpandRange(prefix, name, start, end) + [] == ExpandRange(prefix, name, start, end);
    }
  }

  /** Each setting takes the `[Config]` value when present and the default
      otherwise, whatever the mode and whatever `[SRR_code]` holds. */
  lemma SettingsFollowConfig(ini: IniFile, defaults: Defaults)
    requires ParseInputFile(ini, defaults).Ok?
    ensures var s := ParseInputFile(ini, defaults).value;
      && s.prefetchExe == (if ini.config.prefetchPath.Some? then ini.config.prefetchPath.value else defaults.prefetch)
      && s.fqdumpExe == (if ini.config.fqdumpPath.Some? then ini.config.fqdumpPath.value else defaults.fqdump)
      && s.maxDwSize == (if ini.config.maxDwSize.Some? then ini.config.maxDwSize.value else defaults.maxDwSize)
  {
  }

  /** Any `ranges` value other than the exact text "True" ("true", "1",
      "False", ...) behaves as if the option were absent. */
  lemma RangesOnlyForExactTrue(ini: IniFile, defaults: Defaults)
    requires ini.config.ranges != Some("True")
    ensures ParseInputFile(ini, defaults) == ParseInputFile(ini.(config := ini.config.(ranges := None)), defaults)
    ensures ParseInputFile(ini, defaults).Err? ==> ParseInputFile(ini, defaults) == Err(MissingSrrCode)
  {
  }

  /** Without `ranges = True` every non-empty `[SRR_code]` succeeds, and with
      distinct names the mapping has one entry per name, in file order, whose
      accession is the prefix glued to the value as written. */
  lemma VerbatimMode(ini: IniFile, defaults: Defaults)
    requires !RangesEnabled(ini.config)
    requires ini.srrCode.Some? && |ini.srrCode.value| > 0
    requires DistinctKeys(ini.srrCode.value)
    ensures ParseInputFile(ini, defaults).Ok?
    ensures var d := ParseInputFile(ini, defaults).value.sraDict;
      var entries := ini.srrCode.value;
      && |d| == |entries|
      && forall j :: 0 <= j < |entries| ==> d[j] == (entries[j].0, ResolvedPrefix(ini, defaults) + entries[j].1)
  {
    var es := VerbatimAssignments(ResolvedPrefix(ini, defaults), ini.srrCode.value);
    assert Keys(es) == Keys(ini.srrCode.value);
    assert DistinctKeys(es);
    AssignDistinct(es);
  }

  /** In range mode the first malformed value fails the whole call with
      that entry's error, whatever the entries before it expanded to. */
  lemma RangeModeFailsWhole(ini: IniFile, defaults: Defaults)
    requires RangesEnabled(ini.config)
    requires ini.srrCode.Some? && |ini.srrCode.value| > 0
    requires FirstBadRange(ini.srrCode.value) < |ini.srrCode.value|
    ensures var entries := ini.srrCode.value;
      var j := FirstBadRange(entries);
      ParseInputFile(ini, defaults) == Err(ParseRange(entries[j].0, entries[j].1).error)
  {
  }

  /** In range mode, when every value is a valid range and the names are
      distinct, the mapping is exactly the expansions, in order, and no key
      repeats. */
  lemma RangeModeMapping(ini: IniFile, defaults: Defaults)
    requires RangesEnabled(ini.config)
    requires ini.srrCode.Some? && |ini.srrCode.value| > 0
    requires FirstBadRange(ini.srrCode.value) == |ini.srrCode.value|
    requires DistinctKeys(ini.srrCode.value)
    ensures ParseInputFile(ini, defaults).Ok?
    ensures ParseInputFile(ini, defaults).value.sraDict
      == RangeAssignments(ResolvedPrefix(ini, defaults), ini.srrCode.value).value
    ensures DistinctKeys(ParseInputFile(ini, defaults).value.sraDict)
  {
    var es := RangeAssignments(ResolvedPrefix(ini, defaults), ini.srrCode.value).value;
    RangeKeysDistinct(ResolvedPrefix(ini, defaults), ini.srrCode.value);
    AssignDistinct(es);
  }

  /** The keys range mode generates do not depend on the prefix. */
  lemma {:induction false} RangeKeysIgnorePrefix(p1: string, p2: string, entries: seq<(string, string)>)
    requires RangeAssignments(p1, entries).Ok?
    ensures RangeAssignments(p2, entries).Ok?
    ensures Keys(RangeAssignments(p1, entries).value) == Keys(RangeAssignments(p2, entries).value)
    decreases |entries|
  {
    if |entries| > 0 {
      RangeKeysIgnorePrefix(p1, p2, entries[1..]);
      RangeAssignmentsCons(p1, entries[0], entries[1..]);
      assert entries == [entries[0]] + entries[1..];
      RangeAssignmentsCons(p2, entries[0], entries[1..]);
      var bounds := ParseRange(entries[0].0, entries[0].1).value;
      var h1 := ExpandRange(p1, entries[0].0, bounds.0, bounds.1);
      var h2 := ExpandRange(p2, entries[0].0, bounds.0, bounds.1);
      var r1 := RangeAssignments(p1, entries[1..]).value;
      var r2 := RangeAssignments(p2, entries[1..]).value;
      KeysAppend(h1, r1);
      KeysAppend(h2, r2);
      assert Keys(h1) == Keys(h2);
    }
  }

  /** The prefix appears only inside accession values: changing it changes
      neither whether the call succeeds, nor the other settings, nor the run
      names and their order. */
  lemma PrefixOnlyInValues(ini: IniFile, defaults: Defaults, prefix: string)
    ensures var ini' := ini.(config := ini.config.(prefix := Some(prefix)));
      var r, r' := ParseInputFile(ini, defaults), ParseInputFile(ini', defaults);
      && r.Ok? == r'.Ok?
      && (r.Ok? ==>
        && r.value.prefetchExe == r'.value.prefetchExe
        && r.value.fqdumpExe == r'.value.fqdumpExe
        && r.value.maxDwSize == r'.value.maxDwSize
        && Keys(r.value.sraDict) == Keys(r'.value.sraDict))
  {
    var ini' := ini.(config := ini.config.(prefix := Some(prefix)));
    if ini.srrCode.Some? && |ini.srrCode.value| > 0 {
      var entries := ini.srrCode.value;
      var ranges := RangesEnabled(ini.config);
      var p1, p2 := ResolvedPrefix(ini, defaults), prefix;
      assert ResolvedPrefix(ini', defaults) == p2;
      var a1, a2 := Assignments(ranges, p1, entries), Assignments(ranges, p2, entries);
      if ranges {
        if a1.Ok? {
          RangeKeysIgnorePrefix(p1, p2, entries);
        } else if a2.Ok? {
          RangeKeysIgnorePrefix(p2, p1, entries);
        }
      } else {
        assert Keys(a1.value) == Keys(a2.value);
      }
      if a1.Ok? {
        AssignKeysIgnoreValues(a1.value, a2.value);
      }
    }
  }

  /** Every accession in the mapping starts with the prefix. */
  lemma ValuesCarryPrefix(ini: IniFile, defaults: Defaults)
    requires ParseInputFile(ini, defaults).Ok?
    ensures forall p :: p in ParseInputFile(ini, defaults).value.sraDict ==> ResolvedPrefix(ini, defaults) <= p.1
  {
    var prefix := ResolvedPrefix(ini, defaults);
    var entries := ini.srrCode.value;
    var es := if RangesEnabled(ini.config) then RangeAssignments(prefix, entries).value
              else VerbatimAssignments(prefix, entries);
    if RangesEnabled(ini.config) {
      RangeValuesCarryPrefix(prefix, entries);
    }
    assert forall p :: p in es ==> prefix <= p.1;
    AssignWellFormed(es);
  }

  /** Every accession range mode generates starts with the prefix. */
  lemma {:induction false} RangeValuesCarryPrefix(prefix: string, entries: seq<(string, string)>)
    requires RangeAssignments(prefix, entries).Ok?
    ensures forall p :: p in RangeAssignments(prefix, entries).value ==> prefix <= p.1
    decreases |entries|
  {
    if |entries| > 0 {
      RangeValuesCarryPrefix(prefix, entries[1..]);
    }
  }

  /** `start,end` written with `str` reads back as the same pair. */
  lemma ParseRangeRoundTrip(key: string, start: int, end: int)
    ensures ParseRange(key, IntToDecimal(start) + "," + IntToDecimal(end)) == Ok((start, end))
  {
    var ds, de := IntToDecimal(start), IntToDecimal(end);
    assert Join([ds, de], ',') == ds + "," + de by {
      assert [ds, de][1..] == [de];
    }
    assert ',' !in ds && ',' !in de;
    SplitJoin([ds, de], ',');
    ParseRangeSpec(key, ds + "," + de);
    IntToDecimalRoundTrip(start);
    IntToDecimalRoundTrip(end);
  }

  /** Example defaults for the lemmas below: accession prefix `SRR`, tool
      names `prefetch` and `fastq-dump`, download size `60Gb`. */
  const ExampleDefaults := Defaults("SRR", "prefetch", "fastq-dump", "60Gb")

  /** `[Config] ranges = True` with `[SRR_code] sample = 5,7` yields
      sample_0 -> SRR5, sample_1 -> SRR6, sample_2 -> SRR7. */
  lemma SampleRangeExample()
    ensures var ini := IniFile(ConfigSection(Some("True"), None, None, None, None), Some([("sample", "5,7")]));
      ParseInputFile(ini, ExampleDefaults) == Ok(Settings("prefetch", "fastq-dump", "60Gb",
        [("sample_0", "SRR5"), ("sample_1", "SRR6"), ("sample_2", "SRR7")]))
  {
    var ini := IniFile(ConfigSection(Some("True"), None, None, None, None), Some([("sample", "5,7")]));
    var entries := ini.srrCode.value;
    SampleParse(entries[0].1);
    RangeAssignmentsSingle("SRR", "sample", "5,7");
    assert FirstBadRange(entries) == 1;
    RangeModeMapping(ini, ExampleDefaults);
    SampleExpansion(ExpandRange("SRR", "sample", 5, 7));
  }

  /** `5,7` is the range from 5 to 7. The value is a parameter pinned by
      `requires`, so that the verifier does not unfold the parser on the
      literal wherever it appears. */
  lemma SampleParse(value: string)
    requires value == "5,7"
    ensures ParseRange("sample", value) == Ok((5, 7))
  {
    ParseRangeRoundTrip("sample", 5, 7);
    assert IntToDecimal(5) == "5" && IntToDecimal(7) == "7";
    assert IntToDecimal(5) + "," + IntToDecimal(7) == value;
  }

  /** The expansion of 5..7 under the name `sample` (pinned by `requires`
      for the same reason as `SampleParse`). */
  lemma SampleExpansion(es: seq<(string, string)>)
    requires es == ExpandRange("SRR", "sample", 5, 7)
    ensures es == [("sample_0", "SRR5"), ("sample_1", "SRR6"), ("sample_2", "SRR7")]
  {
    assert NatToDecimal(0) == "0" && NatToDecimal(1) == "1" && NatToDecimal(2) == "2";
    assert IntToDecimal(5) == "5" && IntToDecimal(6) == "6" && IntToDecimal(7) == "7";
    assert RangeKey("sample", 0) == "sample_0";
    assert RangeKey("sample", 1) == "sample_1";
    assert RangeKey("sample", 2) == "sample_2";
    assert "SRR" + "5" == "SRR5" && "SRR" + "6" == "SRR6" && "SRR" + "7" == "SRR7";
    assert es[0] == ("sample_0", "SRR5");
    assert es[1] == ("sample_1", "SRR6");
    assert es[2] == ("sample_2", "SRR7");
  }

  /** Only the exact text "True" turns range mode on: with "true" the same
      entry is copied verbatim, value and all. */
  lemma LowercaseTrueIsVerbatim()
    ensures var ini := IniFile(ConfigSection(Some("true"), None, None, None, None), Some([("sample", "5,7")]));
      ParseInputFile(ini, ExampleDefaults) == Ok(Settings("prefetch", "fastq-dump", "60Gb", [("sample", "SRR5,7")]))
  {
    var ini := IniFile(ConfigSection(Some("true"), None, None, None, None), Some([("sample", "5,7")]));
    assert !RangesEnabled(ini.config);
    VerbatimMode(ini, ExampleDefaults);
    var d := ParseInputFile(ini, ExampleDefaults).value.sraDict;
    assert ResolvedPrefix(ini, ExampleDefaults) == "SRR";
    assert "SRR" + "5,7" == "SRR5,7";
    assert d == [d[0]];
  }

  /** `5,6,7` splits into three tokens that all parse. */
  lemma ThreeTokens()
    ensures Split("5,6,7", ',') == ["5", "6", "7"]
    ensures ParseInts("sample", ["5", "6", "7"]) == Ok([5, 6, 7])
  {
    var tokens := ["5", "6", "7"];
    assert Join(tokens, ',') == "5,6,7" by {
      assert tokens[1..] == ["6", "7"];
      assert tokens[1..][1..] == ["7"];
    }
    SplitJoin(tokens, ',');
    ParseThreeTokens(tokens);
  }

  /** The tokens 5, 6 and 7 convert to three numbers (pinned by `requires`
      for the same reason as `SampleParse`). */
  lemma ParseThreeTokens(tokens: seq<string>)
    requires tokens == ["5", "6", "7"]
    ensures ParseInts("sample", tokens) == Ok([5, 6, 7])
  {
    ParseSmallDigits();
    assert FirstBadToken(tokens) == 3;
    var r := ParseInts("sample", tokens);
    assert r.Ok? && |r.value| == 3;
    assert r.value[0] == 5 && r.value[1] == 6 && r.value[2] == 7;
    assert r.value == [5, 6, 7];
  }

  /** Single digits parse to their values. */
  lemma ParseSmallDigits()
    ensures ParseInt("5") == Some(5) && ParseInt("6") == Some(6) && ParseInt("7") == Some(7)
  {
    assert IsDigits("5") && IsDigits("6") && IsDigits("7");
    ParseIntDigits("5");
    ParseIntDigits("6");
    ParseIntDigits("7");
  }

  /** A range value with three numbers stops range mode with the count found. */
  lemma ThreeNumbersExample()
    ensures var ini := IniFile(ConfigSection(Some("True"), None, None, None, None), Some([("sample", "5,6,7")]));
      ParseInputFile(ini, ExampleDefaults) == Err(WrongRangeArity("sample", 3))
  {
    ThreeTokens();
    assert ParseRange("sample", "5,6,7") == Err(WrongRangeArity("sample", 3));
    RangeAssignmentsCons("SRR", ("sample", "5,6,7"), []);
    assert [("sample", "5,6,7")] + [] == [("sample", "5,6,7")];
  }
}
