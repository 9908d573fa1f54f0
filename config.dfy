/**
 * The dashboard's static configuration: the age bands and the classifier that
 * maps an age onto them, the set of metrics where a smaller value is better,
 * and the table of targets per age band and metric (dashboard.py:43-57).
 */
module Config {

  /** The five age bands, youngest first. */
  const Bands: seq<string> := ["8U", "10U", "12U", "14U", "16U"]

  /** The inclusive upper age of every band but the last, in band order. */
  const UpperAges: seq<real> := [8.0, 10.0, 12.0, 14.0]

  /** An age lies in band k when it is above the upper age of band k - 1 and
      at most the upper age of band k; the last band has no upper age. */
  predicate InBand(age: real, k: nat)
    requires k < 5
  {
    (k == 0 || UpperAges[k - 1] < age) && (k == 4 || age <= UpperAges[k])
  }

  /** The position of a band in Bands, -1 for a name that is not a band. */
  function BandIndex(g: string): (k: int)
    ensures g in Bands <==> 0 <= k < 5
    ensures 0 <= k < 5 ==> Bands[k] == g
  {
    if g == "8U" then 0
    else if g == "10U" then 1
    else if g == "12U" then 2
    else if g == "14U" then 3
    else if g == "16U" then 4
    else -1
  }

  /** get_age_group: the band whose age interval holds the age. A boundary age
      belongs to the lower band, and every age, however large, gets a band. */
  function AgeGroup(age: real): (g: string)
    ensures g in Bands
    ensures InBand(age, BandIndex(g))
  {
    if age <= 8.0 then "8U"
    else if age <= 10.0 then "10U"
    else if age <= 12.0 then "12U"
    else if age <= 14.0 then "14U"
    else "16U"
  }

  /** The band intervals do not overlap, so the contract of AgeGroup
      determines its result. */
  lemma BandsAreDisjoint(age: real, j: nat, k: nat)
    requires j < 5 && k < 5
    requires InBand(age, j) && InBand(age, k)
    ensures j == k
  {
  }

  /** The boundary ages of each band. */
  lemma AgeGroupBoundaries()
    ensures AgeGroup(8.0) == "8U" && AgeGroup(9.0) == "10U"
    ensures AgeGroup(10.0) == "10U" && AgeGroup(11.0) == "12U"
    ensures AgeGroup(12.0) == "12U" && AgeGroup(13.0) == "14U"
    ensures AgeGroup(14.0) == "14U" && AgeGroup(15.0) == "16U"
    ensures AgeGroup(0.0) == "8U" && AgeGroup(99.0) == "16U"
  {
  }

  /** An older player never lands in a younger band. */
  lemma AgeGroupMonotone(younger: real, older: real)
    requires younger <= older
    ensures BandIndex(AgeGroup(younger)) <= BandIndex(AgeGroup(older))
  {
  }

  /** lower_is_better: the metrics where a smaller value is the better one. */
  const LowerIsBetter: set<string> := {"10 yard sprint", "Pro Agility", "Home to 1B sprint"}

  /** The ten metrics that have a target in every band. */
  const MetricNames: set<string> :=
    {"Bench", "Squat", "Pull Ups", "BES - Tee", "BES Flip", "10 yard sprint",
     "Pro Agility", "Arm Speed Regular", "Arm Speed Pitch", "Home to 1B sprint"}

  /** Score a is at least as good as score b under the metric's direction. */
  predicate Better(a: real, b: real, lower: bool)
  {
    if lower then a <= b else a >= b
  }

  /** Score a is strictly better than score b under the metric's direction. */
  predicate StrictlyBetter(a: real, b: real, lower: bool)
  {
    if lower then a < b else a > b
  }

  /** One band's row of the target table, the metrics in the source's order. */
  function BandRow(bench: real, squat: real, pullUps: real, besTee: real, besFlip: real,
                     sprint: real, proAgility: real, armRegular: real, armPitch: real,
                     homeTo1B: real): (row: map<string, real>)
    requires bench > 0.0 && squat > 0.0 && pullUps > 0.0 && besTee > 0.0 && besFlip > 0.0
    requires sprint > 0.0 && proAgility > 0.0 && armRegular > 0.0 && armPitch > 0.0 && homeTo1B > 0.0
    ensures row.Keys == MetricNames
    ensures forall m :: m in row ==> row[m] > 0.0
  {
    map["Bench" := bench, "Squat" := squat, "Pull Ups" := pullUps, "BES - Tee" := besTee,
        "BES Flip" := besFlip, "10 yard sprint" := sprint, "Pro Agility" := proAgility,
        "Arm Speed Regular" := armRegular, "Arm Speed Pitch" := armPitch,
        "Home to 1B sprint" := homeTo1B]
  }

  // The five rows of the target table.
  const Targets8U:  map<string, real> := BandRow(30.0,  50.0,  2.0, 40.0, 35.0, 2.2, 5.5, 35.0, 30.0, 4.5)
  const Targets10U: map<string, real> := BandRow(40.0,  70.0,  4.0, 50.0, 45.0, 2.0, 5.0, 45.0, 40.0, 4.2)
  const Targets12U: map<string, real> := BandRow(50.0,  90.0,  6.0, 60.0, 55.0, 1.9, 4.8, 55.0, 50.0, 4.0)
  const Targets14U: map<string, real> := BandRow(70.0, 110.0,  8.0, 70.0, 65.0, 1.8, 4.6, 65.0, 60.0, 3.9)
  const Targets16U: map<string, real> := BandRow(90.0, 140.0, 10.0, 80.0, 75.0, 1.7, 4.5, 75.0, 70.0, 3.8)

  /** The row of the target table for one band. */
  function TargetsOfBand(g: string): (row: map<string, real>)
    requires g in Bands
    ensures row.Keys == MetricNames
    ensures forall m :: m in row ==> row[m] > 0.0
  {
    if g == "8U" then Targets8U
    else if g == "10U" then Targets10U
    else if g == "12U" then Targets12U
    else if g == "14U" then Targets14U
    else Targets16U
  }

  /** targets: age band -> metric -> target value. Every band has an entry,
      every entry has all ten metrics, and every target is positive. */
  function Targets(): (t: map<string, map<string, real>>)
    ensures forall g :: g in t <==> g in Bands
    ensures forall g :: g in t ==> t[g].Keys == MetricNames
    ensures forall g, m :: g in t && m in t[g] ==> t[g][m] > 0.0
  {
    map g | g in Bands :: TargetsOfBand(g)
  }

  /** `targets.get(get_age_group(age), {})`: the targets of the age's band,
      the empty map if the band had no row. */
  function BandTargets(age: real): (t: map<string, real>)
    ensures t.Keys == MetricNames
    ensures forall m :: m in t ==> t[m] == Targets()[AgeGroup(age)][m] && t[m] > 0.0
  {
    var g := AgeGroup(age);
    if g in Targets() then Targets()[g] else map[]
  }

  /** Every band AgeGroup can return has an entry in the target table, so the
      empty-map fallback of `targets.get(..., {})` is never taken. */
  lemma EveryAgeHasTargets(age: real)
    ensures AgeGroup(age) in Targets()
    ensures Targets()[AgeGroup(age)].Keys == MetricNames
  {
  }

  /** Each target of row `older` is strictly harder than the same metric's
      target in row `younger`, in that metric's direction. */
  predicate Tightens(younger: map<string, real>, older: map<string, real>)
  {
    forall m :: m in MetricNames && m in younger && m in older ==>
      StrictlyBetter(older[m], younger[m], m in LowerIsBetter)
  }

  // The direction set agrees with the table: going up one band, each
  // metric's target becomes strictly harder in that metric's direction.
  // (Targets()[g] is TargetsOfBand(g) for every band g.)

  lemma Tightens8UTo10U() ensures Tightens(TargetsOfBand("8U"), TargetsOfBand("10U")) {
    assert TargetsOfBand("8U") == Targets8U && TargetsOfBand("10U") == Targets10U;
  }

  lemma Tightens10UTo12U() ensures Tightens(TargetsOfBand("10U"), TargetsOfBand("12U")) {
    assert TargetsOfBand("10U") == Targets10U && TargetsOfBand("12U") == Targets12U;
  }

  lemma Tightens12UTo14U() ensures Tightens(TargetsOfBand("12U"), TargetsOfBand("14U")) {
    assert TargetsOfBand("12U") == Targets12U && TargetsOfBand("14U") == Targets14U;
  }

  lemma Tightens14UTo16U() ensures Tightens(TargetsOfBand("14U"), TargetsOfBand("16U")) {
    assert TargetsOfBand("14U") == Targets14U && TargetsOfBand("16U") == Targets16U;
  }
}
