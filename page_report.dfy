/** The computing parts of the older report (python/page/report.py): the no-op
    `ensure_decreases` and the classification of every feature, per confidence
    level and class, as up-regulated (1), down-regulated (2) or neither (0).
    Its `ensure_increases` is the same repair as the core's and is modelled once,
    as `PageScores.EnsureIncreases`. */
module PageReport {
  import opened Sequences

  /** `ensure_decreases(a)`: loops over the array and does nothing. */
  method EnsureDecreases(a: array<real>)
    modifies a
    ensures a[..] == old(a[..])
  {
    var n := if a.Length == 0 then 0 else a.Length - 1;
    for i := 0 to n {
    }
  }

  /** One classification: up is tested first, against its cutoff; then down,
      against the negated down cutoff. */
  function Determination(up: real, upCutoff: real, down: real, downCutoff: real): (d: int)
    ensures d == 1 <==> up >= upCutoff
    ensures d == 2 <==> up < upCutoff && down <= -downCutoff
    ensures d == 0 <==> up < upCutoff && down > -downCutoff
  {
    if up >= upCutoff then 1 else if down <= -downCutoff then 2 else 0
  }

  /** The inputs of the loop, over L levels, C classes and F features:
      best up/down statistics and confidences per (level, class, feature), and
      up/down cutoffs per (level, class). */
  datatype ReportInputs = ReportInputs(upStats: seq<seq<seq<real>>>, downStats: seq<seq<seq<real>>>,
                                       upConf: seq<seq<seq<real>>>, downConf: seq<seq<seq<real>>>,
                                       upCutoffs: seq<seq<real>>, downCutoffs: seq<seq<real>>,
                                       levels: nat, classes: nat, features: nat)
  {
    predicate Valid()
    {
      Box(upStats, levels, classes, features) && Box(downStats, levels, classes, features) &&
      Box(upConf, levels, classes, features) && Box(downConf, levels, classes, features) &&
      Rect(upCutoffs, levels, classes) && Rect(downCutoffs, levels, classes)
    }

    /** `determination[i, c, j]`: class 0 is never assigned and stays 0. */
    function DeterminationAt(i: nat, c: nat, j: nat): int
      requires Valid() && i < levels && c < classes && j < features
    {
      if c == 0 then 0
      else Determination(upStats[i][c][j], upCutoffs[i][c], downStats[i][c][j], downCutoffs[i][c])
    }

    /** `feature_to_stat[i, c, j]`: the matching direction's statistic, or 0. */
    function StatAt(i: nat, c: nat, j: nat): real
      requires Valid() && i < levels && c < classes && j < features
    {
      var d := DeterminationAt(i, c, j);
      if d == 1 then upStats[i][c][j] else if d == 2 then downStats[i][c][j] else 0.0
    }

    /** `feature_to_conf[i, c, j]`: the matching direction's confidence, or 0. */
    function ConfAt(i: nat, c: nat, j: nat): real
      requires Valid() && i < levels && c < classes && j < features
    {
      var d := DeterminationAt(i, c, j);
      if d == 1 then upConf[i][c][j] else if d == 2 then downConf[i][c][j] else 0.0
    }

    /** `any_regulated[i, j]`: 1 when some class classifies the feature. */
    function AnyRegulatedAt(i: nat, j: nat): int
      requires Valid() && i < levels && j < features
    {
      if exists c :: 0 <= c < classes && DeterminationAt(i, c, j) > 0 then 1 else 0
    }
  }

  predicate Shaped(inp: ReportInputs, det: array3<int>, stat: array3<real>, conf: array3<real>)
  {
    det.Length0 == stat.Length0 == conf.Length0 == inp.levels &&
    det.Length1 == stat.Length1 == conf.Length1 == inp.classes &&
    det.Length2 == stat.Length2 == conf.Length2 == inp.features &&
    stat != conf
  }

  /** The triple loop of the report: per level, per feature, every class from 1
      on is classified and its statistic and confidence recorded; then
      `any_regulated` is set from the feature's classes. */
  method DetermineAll(inp: ReportInputs)
    returns (det: array3<int>, stat: array3<real>, conf: array3<real>, anyRegulated: array2<int>)
    requires inp.Valid()
    ensures fresh(det) && fresh(stat) && fresh(conf) && fresh(anyRegulated)
    ensures Shaped(inp, det, stat, conf)
    ensures anyRegulated.Length0 == inp.levels && anyRegulated.Length1 == inp.features
    ensures forall i, c, j :: 0 <= i < inp.levels && 0 <= c < inp.classes && 0 <= j < inp.features ==>
              (det[i, c, j] == inp.DeterminationAt(i, c, j) && stat[i, c, j] == inp.StatAt(i, c, j) && conf[i, c, j] == inp.ConfAt(i, c, j))
    ensures forall i, j :: 0 <= i < inp.levels && 0 <= j < inp.features ==>
              anyRegulated[i, j] == inp.AnyRegulatedAt(i, j)
  {
    det := new int[inp.levels, inp.classes, inp.features]((i, c, j) => 0);
    stat := new real[inp.levels, inp.classes, inp.features]((i, c, j) => 0.0);
    conf := new real[inp.levels, inp.classes, inp.features]((i, c, j) => 0.0);
    anyRegulated := new int[inp.levels, inp.features]((i, j) => 0);
    for i := 0 to inp.levels
      invariant forall i', c, j :: 0 <= i' < i && 0 <= c < inp.classes && 0 <= j < inp.features ==>
                  (det[i', c, j] == inp.DeterminationAt(i', c, j) && stat[i', c, j] == inp.StatAt(i', c, j) && conf[i', c, j] == inp.ConfAt(i', c, j))
      invariant forall i', j :: 0 <= i' < i && 0 <= j < inp.features ==>
                  anyRegulated[i', j] == inp.AnyRegulatedAt(i', j)
      invariant forall i', c, j :: i <= i' < inp.levels && 0 <= c < inp.classes && 0 <= j < inp.features ==>
                  (det[i', c, j] == 0 && stat[i', c, j] == 0.0 && conf[i', c, j] == 0.0)
    {
      DetermineLevel(inp, det, stat, conf, anyRegulated, i);
    }
  }

  /** One level: every feature in turn; the other levels are left alone. */
  method DetermineLevel(inp: ReportInputs, det: array3<int>, stat: array3<real>, conf: array3<real>,
                        anyRegulated: array2<int>, i: nat)
    requires inp.Valid() && Shaped(inp, det, stat, conf) && i < inp.levels
    requires anyRegulated.Length0 == inp.levels && anyRegulated.Length1 == inp.features
    requires forall c, j :: 0 <= c < inp.classes && 0 <= j < inp.features ==> (det[i, c, j] == 0 && stat[i, c, j] == 0.0 && conf[i, c, j] == 0.0)
    modifies det, stat, conf, anyRegulated
    ensures forall c, j :: 0 <= c < inp.classes && 0 <= j < inp.features ==> (det[i, c, j] == inp.DeterminationAt(i, c, j) && stat[i, c, j] == inp.StatAt(i, c, j) && conf[i, c, j] == inp.ConfAt(i, c, j))
    ensures forall j :: 0 <= j < inp.features ==> anyRegulated[i, j] == inp.AnyRegulatedAt(i, j)
    ensures forall i', c, j :: 0 <= i' < inp.levels && i' != i && 0 <= c < inp.classes && 0 <= j < inp.features ==>
              det[i', c, j] == old(det[i', c, j]) && stat[i', c, j] == old(stat[i', c, j]) && conf[i', c, j] == old(conf[i', c, j])
    ensures forall i', j :: 0 <= i' < inp.levels && i' != i && 0 <= j < inp.features ==>
              anyRegulated[i', j] == old(anyRegulated[i', j])
  {
    for j := 0 to inp.features
      invariant forall c, j' :: 0 <= c < inp.classes && 0 <= j' < j ==> (det[i, c, j'] == inp.DeterminationAt(i, c, j') && stat[i, c, j'] == inp.StatAt(i, c, j') && conf[i, c, j'] == inp.ConfAt(i, c, j'))
      invariant forall j' :: 0 <= j' < j ==> anyRegulated[i, j'] == inp.AnyRegulatedAt(i, j')
      invariant forall c, j' :: 0 <= c < inp.classes && j <= j' < inp.features ==> (det[i, c, j'] == 0 && stat[i, c, j'] == 0.0 && conf[i, c, j'] == 0.0)
      invariant forall i', c, j' :: 0 <= i' < inp.levels && i' != i && 0 <= c < inp.classes && 0 <= j' < inp.features ==>
                  det[i', c, j'] == old(det[i', c, j']) && stat[i', c, j'] == old(stat[i', c, j']) && conf[i', c, j'] == old(conf[i', c, j'])
      invariant forall i', j' :: 0 <= i' < inp.levels && i' != i && 0 <= j' < inp.features ==>
                  anyRegulated[i', j'] == old(anyRegulated[i', j'])
    {
      DetermineFeature(inp, det, stat, conf, i, j);
      assert forall c :: 0 <= c < inp.classes ==> det[i, c, j] == inp.DeterminationAt(i, c, j);
      anyRegulated[i, j] := if exists c :: 0 <= c < inp.classes && det[i, c, j] > 0 then 1 else 0;
    }
  }

  /** One feature at one level: classes 1 and up; class 0 and the other
      features are left alone. */
  method DetermineFeature(inp: ReportInputs, det: array3<int>, stat: array3<real>, conf: array3<real>, i: nat, j: nat)
    requires inp.Valid() && Shaped(inp, det, stat, conf) && i < inp.levels && j < inp.features
    requires forall c :: 0 <= c < inp.classes ==> (det[i, c, j] == 0 && stat[i, c, j] == 0.0 && conf[i, c, j] == 0.0)
    modifies det, stat, conf
    ensures forall c :: 0 <= c < inp.classes ==> (det[i, c, j] == inp.DeterminationAt(i, c, j) && stat[i, c, j] == inp.StatAt(i, c, j) && conf[i, c, j] == inp.ConfAt(i, c, j))
    ensures forall i', c, j' :: 0 <= i' < inp.levels && 0 <= c < inp.classes && 0 <= j' < inp.features && (i', j') != (i, j) ==>
              det[i', c, j'] == old(det[i', c, j']) && stat[i', c, j'] == old(stat[i', c, j']) && conf[i', c, j'] == old(conf[i', c, j'])
  {
    if inp.classes == 0 {
      return;
    }
    for c := 1 to inp.classes
      invariant forall c' :: 0 <= c' < c ==> (det[i, c', j] == inp.DeterminationAt(i, c', j) && stat[i, c', j] == inp.StatAt(i, c', j) && conf[i, c', j] == inp.ConfAt(i, c', j))
      invariant forall c' :: c <= c' < inp.classes ==> (det[i, c', j] == 0 && stat[i, c', j] == 0.0 && conf[i, c', j] == 0.0)
      invariant forall i', c', j' :: 0 <= i' < inp.levels && 0 <= c' < inp.classes && 0 <= j' < inp.features && (i', j') != (i, j) ==>
                  det[i', c', j'] == old(det[i', c', j']) && stat[i', c', j'] == old(stat[i', c', j']) && conf[i', c', j'] == old(conf[i', c', j'])
    {
      ClassifyCell(inp, det, stat, conf, i, c, j);
    }
  }

  /** The body of the innermost loop for one (level, class, feature). */
  method ClassifyCell(inp: ReportInputs, det: array3<int>, stat: array3<real>, conf: array3<real>, i: nat, c: nat, j: nat)
    requires inp.Valid() && Shaped(inp, det, stat, conf) && i < inp.levels && 0 < c < inp.classes && j < inp.features
    requires (det[i, c, j] == 0 && stat[i, c, j] == 0.0 && conf[i, c, j] == 0.0)
    modifies det, stat, conf
    ensures (det[i, c, j] == inp.DeterminationAt(i, c, j) && stat[i, c, j] == inp.StatAt(i, c, j) && conf[i, c, j] == inp.ConfAt(i, c, j))
    ensures forall i', c', j' :: 0 <= i' < inp.levels && 0 <= c' < inp.classes && 0 <= j' < inp.features && (i', c', j') != (i, c, j) ==>
              det[i', c', j'] == old(det[i', c', j']) && stat[i', c', j'] == old(stat[i', c', j']) && conf[i', c', j'] == old(conf[i', c', j'])
  {
    if inp.upStats[i][c][j] >= inp.upCutoffs[i][c] {
      det[i, c, j] := 1;
      stat[i, c, j] := inp.upStats[i][c][j];
      conf[i, c, j] := inp.upConf[i][c][j];
    } else if inp.downStats[i][c][j] <= -inp.downCutoffs[i][c] {
      det[i, c, j] := 2;
      stat[i, c, j] := inp.downStats[i][c][j];
      conf[i, c, j] := inp.downConf[i][c][j];
    }
  }

  /** Up wins over down: a feature past both cutoffs is classified up. */
  lemma UpCheckedFirst(inp: ReportInputs, i: nat, c: nat, j: nat)
    requires inp.Valid() && i < inp.levels && 0 < c < inp.classes && j < inp.features
    requires inp.upStats[i][c][j] >= inp.upCutoffs[i][c]
    ensures inp.DeterminationAt(i, c, j) == 1 && inp.StatAt(i, c, j) == inp.upStats[i][c][j]
  {
  }

  /** A feature is regulated at a level exactly when some class, necessarily one
      from 1 on, has it past the up cutoff or, failing that, the down cutoff. */
  lemma AnyRegulatedMeans(inp: ReportInputs, i: nat, j: nat)
    requires inp.Valid() && i < inp.levels && j < inp.features
    ensures inp.AnyRegulatedAt(i, j) == 1 <==>
              exists c :: 1 <= c < inp.classes &&
                (inp.upStats[i][c][j] >= inp.upCutoffs[i][c] || inp.downStats[i][c][j] <= -inp.downCutoffs[i][c])
  {
    if inp.AnyRegulatedAt(i, j) == 1 {
      var c :| 0 <= c < inp.classes && inp.DeterminationAt(i, c, j) > 0;
      assert c >= 1;
    }
    if exists c :: 1 <= c < inp.classes &&
         (inp.upStats[i][c][j] >= inp.upCutoffs[i][c] || inp.downStats[i][c][j] <= -inp.downCutoffs[i][c]) {
      var c :| 1 <= c < inp.classes &&
         (inp.upStats[i][c][j] >= inp.upCutoffs[i][c] || inp.downStats[i][c][j] <= -inp.downCutoffs[i][c]);
      assert inp.DeterminationAt(i, c, j) > 0;
    }
  }
}
