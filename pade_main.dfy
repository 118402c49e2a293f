/** The command-line checks of the newer code base (pade/main.py): the English
    list used in messages, the check that every chosen variable is a factor of
    the schema, and the option-consistency and variable-selection rules that
    turn parsed arguments into settings. */
module PadeMain {
  import opened Wrappers
  import opened Sequences

  /** `'"' + str(x) + '"'`. */
  function Quote(x: string): string
  {
    "\"" + x + "\""
  }

  /** The English list `quote_and_join` promises: nothing, one quoted item, two
      joined by " and ", or the items separated by commas with ", and " before
      the last. */
  function Listed(items: seq<string>): (r: string)
  {
    var n := |items|;
    if n == 0 then ""
    else if n == 1 then Quote(items[0])
    else if n == 2 then Quote(items[0]) + " and " + Quote(items[1])
    else Join(", ", seq(n - 1, k requires 0 <= k < n - 1 => Quote(items[k]))) + ", and " + Quote(items[n - 1])
  }

  /** `quote_and_join`: quotes every item into a fresh list, and for three or
      more items overwrites the last entry with "and " in front before joining
      with ", ". */
  method QuoteAndJoin(items: seq<string>) returns (s: string)
    ensures s == Listed(items)
  {
    var n := |items|;
    var xs := new string[n];
    for k := 0 to n
      invariant forall m :: 0 <= m < k ==> xs[m] == Quote(items[m])
    {
      xs[k] := Quote(items[k]);
    }
    if n == 0 {
      return "";
    }
    if n == 1 {
      return xs[0];
    } else if n == 2 {
      return xs[0] + " and " + xs[1];
    }
    xs[n - 1] := "and " + xs[n - 1];
    s := Join(", ", xs[..]);
    assert xs[..][..n - 1] == seq(n - 1, k requires 0 <= k < n - 1 => Quote(items[k]));
  }

  /** The documented shapes of the list for zero to two items. */
  lemma ListedExamples()
    ensures Listed([]) == ""
    ensures Listed(["a"]) == "\"a\""
    ensures Listed(["a", "b"]) == "\"a\" and \"b\""
  {
  }

  /** Three or more items: commas, and ", and " before the last. */
  lemma ListedExampleThree()
    ensures Listed(["a", "b", "c"]) == "\"a\", \"b\", and \"c\""
  {
    var items := ["a", "b", "c"];
    var front := seq(2, k requires 0 <= k < 2 => Quote(items[k]));
    assert front == [Quote("a"), Quote("b")];
    JoinTwo(", ", Quote("a"), Quote("b"));
    assert Listed(items) == Quote("a") + ", " + Quote("b") + ", and " + Quote("c");
  }

  lemma JoinTwo(sep: string, x: string, y: string)
    ensures Join(sep, [x, y]) == x + sep + y
  {
    assert [x, y][..1] == [x];
  }

  /** Every item shows up quoted in the list. */
  lemma ListedMentionsAll(items: seq<string>, k: nat)
    requires k < |items|
    ensures exists i, j :: 0 <= i <= j <= |Listed(items)| && Listed(items)[i..j] == Quote(items[k])
  {
    var n := |items|;
    var r := Listed(items);
    if n == 1 {
      assert r[0..|r|] == Quote(items[0]);
    } else if n == 2 {
      var a := Quote(items[0]);
      if k == 0 {
        assert r[0..|a|] == a;
      } else {
        assert r[|r| - |Quote(items[1])|..|r|] == Quote(items[1]);
      }
    } else {
      var parts := seq(n - 1, m requires 0 <= m < n - 1 => Quote(items[m]));
      var head := Join(", ", parts);
      if k == n - 1 {
        assert r[|r| - |Quote(items[k])|..|r|] == Quote(items[k]);
      } else {
        var i, j := JoinMentions(", ", parts, k);
        assert r[i..j] == head[i..j];
      }
    }
  }

  /** Each part of a join appears in it as a contiguous piece. */
  lemma {:induction false} JoinMentions(sep: string, parts: seq<string>, k: nat) returns (i: nat, j: nat)
    requires k < |parts|
    ensures i <= j <= |Join(sep, parts)| && Join(sep, parts)[i..j] == parts[k]
  {
    var n := |parts|;
    var whole := Join(sep, parts);
    if n == 1 {
      i, j := 0, |parts[0]|;
    } else if k == n - 1 {
      i, j := |whole| - |parts[k]|, |whole|;
    } else {
      var front := parts[..n - 1];
      assert front[k] == parts[k];
      i, j := JoinMentions(sep, front, k);
      var head := Join(sep, front);
      assert whole == head + sep + parts[n - 1];
      assert whole[i..j] == head[i..j];
    }
  }

  /** The settings fields the modelled rules decide. */
  datatype Settings = Settings(
    stat: string,
    glmFamily: string,
    shrink: bool,
    blockVariables: seq<string>,
    conditionVariables: seq<string>,
    tuningParams: seq<real>)

  /** The unknown variables of the settings, as a set, when there are any. */
  function ValidateSettings(settings: Settings, factors: set<string>): (r: Option<set<string>>)
    ensures r.Some? <==> exists v :: v in settings.conditionVariables + settings.blockVariables && v !in factors
    ensures r.Some? ==> forall v :: v in r.value <==>
              v in settings.conditionVariables + settings.blockVariables && v !in factors
  {
    var named := settings.conditionVariables + settings.blockVariables;
    var bad := set v | v in named && v !in factors;
    if bad != {} then Some(bad)
    else
      assert forall v :: v in named && v !in factors ==> v in bad;
      None
  }

  /** Settings naming only schema factors pass validation. */
  lemma ValidateSettingsKnown(settings: Settings, factors: set<string>)
    requires forall v :: v in settings.conditionVariables ==> v in factors
    requires forall v :: v in settings.blockVariables ==> v in factors
    ensures ValidateSettings(settings, factors).None?
  {
  }

  /** The parsed options the modelled rules read. */
  datatype Args = Args(
    paired: bool,
    stat: string,
    glmFamily: string,
    shrink: bool,
    block: seq<string>,
    condition: seq<string>,
    fullModel: Option<string>,
    tuningParam: Option<seq<real>>)

  /** The usage errors `args_to_settings` raises. */
  datatype UsageError =
    | GlmWithoutFamily
    | FamilyWithoutGlm
    | ShrinkWithoutNegativeBinomial
    | NoConditionChosen

  /** The statistic after `--paired` has overridden it with the one-sample t-test. */
  function EffectiveStat(args: Args): string
  {
    if args.paired then "t" else args.stat
  }

  /** The rules of `args_to_settings`, in their order, given whether a
      distribution family counts as specified. */
  function Settle(args: Args, factors: seq<string>, defaultTuning: seq<real>, familyGiven: bool)
    : Result<Settings, UsageError>
    requires |args.block| > 0 || |args.condition| > 0 || args.fullModel.None?
  {
    var stat := EffectiveStat(args);
    if stat == "glm" && !familyGiven then Err(GlmWithoutFamily)
    else if familyGiven && stat != "glm" then Err(FamilyWithoutGlm)
    else if args.shrink && args.glmFamily != "negative_binomial" then Err(ShrinkWithoutNegativeBinomial)
    else if !(|args.block| > 0 || |args.condition| > 0) && |factors| != 1 then Err(NoConditionChosen)
    else
      var explicit := |args.block| > 0 || |args.condition| > 0;
      var blocks := if explicit then args.block else [];
      var conditions := if explicit then args.condition else factors;
      var tuning := if args.tuningParam.None? || |args.tuningParam.value| == 0 then defaultTuning
                    else args.tuningParam.value;
      Ok(Settings(stat, args.glmFamily, args.shrink, blocks, conditions, tuning))
  }

  /** `args_to_settings` as written: a family counts as specified whenever it is
      not the empty string. */
  function ArgsToSettings(args: Args, factors: seq<string>, defaultTuning: seq<real>): (r: Result<Settings, UsageError>)
    requires |args.block| > 0 || |args.condition| > 0 || args.fullModel.None?
    ensures r == Err(GlmWithoutFamily) <==> EffectiveStat(args) == "glm" && args.glmFamily == ""
    ensures r == Err(FamilyWithoutGlm) <==> args.glmFamily != "" && EffectiveStat(args) != "glm"
    ensures r.Ok? ==> (r.value.stat == "glm" <==> r.value.glmFamily != "")
  {
    Settle(args, factors, defaultTuning, args.glmFamily != "")
  }

  /** `--paired` always yields the t statistic, and a shrinkage run is always a
      negative binomial one. */
  lemma SettingsConsistent(args: Args, factors: seq<string>, defaultTuning: seq<real>)
    requires |args.block| > 0 || |args.condition| > 0 || args.fullModel.None?
    ensures var r := ArgsToSettings(args, factors, defaultTuning);
            r.Ok? ==> (args.paired ==> r.value.stat == "t") &&
                      (r.value.shrink ==> r.value.glmFamily == "negative_binomial")
  {
  }

  /** Explicit `--block`/`--condition` options are taken as they are; without
      them a schema with one factor makes it the condition with no blocks, and
      any other schema is refused. */
  lemma VariableSelection(args: Args, factors: seq<string>, defaultTuning: seq<real>)
    requires |args.block| > 0 || |args.condition| > 0 || args.fullModel.None?
    ensures var r := ArgsToSettings(args, factors, defaultTuning);
            (r.Ok? && (|args.block| > 0 || |args.condition| > 0) ==>
               r.value.blockVariables == args.block && r.value.conditionVariables == args.condition) &&
            (r.Ok? && |args.block| == 0 && |args.condition| == 0 ==>
               r.value.blockVariables == [] && r.value.conditionVariables == factors && |factors| == 1) &&
            (r == Err(NoConditionChosen) ==> |args.block| == 0 && |args.condition| == 0 && |factors| != 1)
  {
  }

  /** Missing or empty `--tuning-param` options fall back to the defaults. */
  lemma TuningDefaults(args: Args, factors: seq<string>, defaultTuning: seq<real>)
    requires |args.block| > 0 || |args.condition| > 0 || args.fullModel.None?
    ensures var r := ArgsToSettings(args, factors, defaultTuning);
            r.Ok? ==> (r.value.tuningParams ==
              (if args.tuningParam.None? || |args.tuningParam.value| == 0 then defaultTuning else args.tuningParam.value))
  {
  }

  /** The options as parsed when none is given: statistic "f", family "N/A". */
  function DefaultArgs(): Args
  {
    Args(false, "f", "N/A", false, [], [], None, None)
  }

  /** As written, the parser's default family "N/A" is not empty, so a run with
      default options is refused whatever the schema, and so is every run of a
      statistic other than "glm" (including `--paired`) that does not pass an
      empty family explicitly. */
  lemma DefaultArgsRejected(factors: seq<string>, defaultTuning: seq<real>, paired: bool)
    ensures ArgsToSettings(DefaultArgs(), factors, defaultTuning) == Err(FamilyWithoutGlm)
    ensures ArgsToSettings(DefaultArgs().(paired := paired), factors, defaultTuning) == Err(FamilyWithoutGlm)
  {
  }

  /** A family counts as specified when it is neither empty nor the parser's
      "N/A" placeholder. */
  predicate FamilySpecified(family: string)
  {
    family != "" && family != "N/A"
  }

  /** `args_to_settings` with the default family read as "not specified". */
  function ArgsToSettingsCorrected(args: Args, factors: seq<string>, defaultTuning: seq<real>)
    : (r: Result<Settings, UsageError>)
    requires |args.block| > 0 || |args.condition| > 0 || args.fullModel.None?
    ensures r == Err(GlmWithoutFamily) <==> EffectiveStat(args) == "glm" && !FamilySpecified(args.glmFamily)
    ensures r == Err(FamilyWithoutGlm) <==> FamilySpecified(args.glmFamily) && EffectiveStat(args) != "glm"
    ensures r.Ok? ==> (r.value.stat == "glm" <==> FamilySpecified(r.value.glmFamily))
  {
    Settle(args, factors, defaultTuning, FamilySpecified(args.glmFamily))
  }

  /** With the correction a default run on a one-factor schema is accepted: the f
      statistic, the factor as the condition, no blocks, the default tuning
      parameters; and `--paired` yields the t statistic. */
  lemma DefaultArgsAccepted(factor: string, defaultTuning: seq<real>, paired: bool)
    ensures ArgsToSettingsCorrected(DefaultArgs(), [factor], defaultTuning)
              == Ok(Settings("f", "N/A", false, [], [factor], defaultTuning))
    ensures ArgsToSettingsCorrected(DefaultArgs().(paired := paired), [factor], defaultTuning).Ok?
  {
  }

  /** Wherever the family is a real one or empty, the correction changes nothing. */
  lemma CorrectionAgrees(args: Args, factors: seq<string>, defaultTuning: seq<real>)
    requires |args.block| > 0 || |args.condition| > 0 || args.fullModel.None?
    requires args.glmFamily != "N/A"
    ensures ArgsToSettingsCorrected(args, factors, defaultTuning) == ArgsToSettings(args, factors, defaultTuning)
  {
  }
}
