/**
 The interactive widgets' logic: single-selection card groups, the Intel
 tier power-bar widths, and the RAM slider's configuration lookup with its
 five-star rating.
 */
module Widgets {
  import opened Options

  // ---------------------------------------------------------------------
  // Single-selection card groups (choice cards, Intel tiers, screen sizes,
  // brand cards all use the same click handler shape).

  /**
   The group after a click on item `k`: every mark cleared, then `k` marked,
   so `k` is the one and only selected item.
   */
  function Click(marks: seq<bool>, k: nat): (r: seq<bool>)
    requires k < |marks|
    ensures |r| == |marks|
    ensures r[k] && forall j :: 0 <= j < |r| && j != k ==> !r[j]
  {
    seq(|marks|, _ => false)[k := true]
  }

  /** Clicking the selected item again changes nothing. */
  lemma ClickIdempotent(marks: seq<bool>, k: nat)
    requires k < |marks|
    ensures Click(Click(marks, k), k) == Click(marks, k)
  {
  }

  /** A series of clicks on items of a group of `n`. */
  function Clicks(marks: seq<bool>, ks: seq<nat>): (r: seq<bool>)
    requires forall i :: 0 <= i < |ks| ==> ks[i] < |marks|
    decreases |ks|
  {
    if ks == [] then marks else Clicks(Click(marks, ks[0]), ks[1..])
  }

  /**
   Only the last click matters: whatever was selected before and whatever
   was clicked earlier, after a series of clicks the last clicked item is
   the only one selected.
   */
  lemma {:induction false} LastClickWins(marks: seq<bool>, ks: seq<nat>)
    requires ks != []
    requires forall i :: 0 <= i < |ks| ==> ks[i] < |marks|
    ensures Clicks(marks, ks) == Click(marks, ks[|ks| - 1])
    decreases |ks|
  {
    if |ks| > 1 {
      LastClickWins(Click(marks, ks[0]), ks[1..]);
      assert ks[1..][|ks[1..]| - 1] == ks[|ks| - 1];
      assert Click(Click(marks, ks[0]), ks[|ks| - 1]) == Click(marks, ks[|ks| - 1]);
    } else {
      assert Clicks(Click(marks, ks[0]), ks[1..]) == Click(marks, ks[0]);
    }
  }

  /** The click handler: clear `selected` on every item, then set it on item `k`. */
  method Select(selected: array<bool>, k: nat)
    requires k < selected.Length
    modifies selected
    ensures selected[..] == Click(old(selected[..]), k)
  {
    for j := 0 to selected.Length
      invariant forall i :: 0 <= i < j ==> !selected[i]
    {
      selected[j] := false;
    }
    selected[k] := true;
  }

  // ---------------------------------------------------------------------
  // Intel tier power bars.

  /**
   The width (in percent) of a tier's power bar, by the tier's data
   attribute (absent attribute: `None`). Unknown tiers get the i3 width.
   */
  function PowerBarWidth(tier: Option<string>): (w: int)
    ensures w in {30, 60, 85, 100}
    ensures w == 60 <==> tier == Some("i5")
    ensures w == 85 <==> tier == Some("i7")
    ensures w == 100 <==> tier == Some("i9")
  {
    if tier == Some("i3") then 30
    else if tier == Some("i5") then 60
    else if tier == Some("i7") then 85
    else if tier == Some("i9") then 100
    else 30
  }

  /** The position of a known tier in the Intel line-up. */
  function TierRank(tier: string): (rank: int)
  {
    if tier == "i3" then 3 else if tier == "i5" then 5 else if tier == "i7" then 7 else if tier == "i9" then 9 else 0
  }

  /** A higher tier never gets a shorter power bar. */
  lemma PowerBarWidthMonotone(a: string, b: string)
    requires TierRank(a) > 0 && TierRank(b) > 0
    requires TierRank(a) <= TierRank(b)
    ensures PowerBarWidth(Some(a)) <= PowerBarWidth(Some(b))
  {
  }

  // ---------------------------------------------------------------------
  // RAM slider configurations.

  /**
   One row of the RAM table. The title and the usage examples are display
   text; the row is identified here by its size in gigabytes.
   */
  datatype RamConfig = RamConfig(gigabytes: int, stars: int)

  /** The table, keyed by the slider's value as the string it is. */
  const RamConfigs: map<string, RamConfig> := map[
    "4" := RamConfig(4, 2),
    "8" := RamConfig(8, 3),
    "12" := RamConfig(12, 4),
    "16" := RamConfig(16, 4),
    "20" := RamConfig(20, 5),
    "24" := RamConfig(24, 5),
    "28" := RamConfig(28, 5),
    "32" := RamConfig(32, 5)
  ]

  /** The configuration for a slider value; an unknown value falls back to 8 GB. */
  function RamConfigFor(value: string): (c: RamConfig)
    ensures c in RamConfigs.Values
    ensures value in RamConfigs ==> c == RamConfigs[value]
    ensures value !in RamConfigs ==> c.gigabytes == 8
    ensures 2 <= c.stars <= 5
  {
    if value in RamConfigs then RamConfigs[value] else RamConfigs["8"]
  }

  /** More memory never rates fewer stars. */
  lemma RamStarsMonotone(a: string, b: string)
    requires a in RamConfigs && b in RamConfigs
    requires RamConfigs[a].gigabytes <= RamConfigs[b].gigabytes
    ensures RamConfigs[a].stars <= RamConfigs[b].stars
  {
  }

  /** A rating icon: a solid star or an outlined one. */
  datatype Star = Solid | Outline

  /** Number of solid stars in a row of icons. */
  function SolidCount(icons: seq<Star>): (n: nat)
  {
    if icons == [] then 0
    else SolidCount(icons[..|icons| - 1]) + (if icons[|icons| - 1] == Solid then 1 else 0)
  }

  function Clamp(x: int, lo: int, hi: int): (r: int)
  {
    if x < lo then lo else if x > hi then hi else x
  }

  /** The first `n` icons of a rating of `stars`. */
  function StarRow(n: nat, stars: int): (row: seq<Star>)
  {
    seq(n, j => if j + 1 <= stars then Solid else Outline)
  }

  /** A row of `n` icons shows `stars` solid ones, clamped to [0, n]. */
  lemma {:induction false} StarRowSolidCount(n: nat, stars: int)
    ensures SolidCount(StarRow(n, stars)) == Clamp(stars, 0, n)
  {
    if n > 0 {
      StarRowSolidCount(n - 1, stars);
      assert StarRow(n, stars)[..n - 1] == StarRow(n - 1, stars);
    }
  }

  /** The number of icons in the rating. */
  const RatingSize: nat := 5

  /**
   The slider's rating update: look up the configuration (falling back to
   8 GB), then build five icons, the first `stars` of them solid.
   */
  method UpdateRamRating(value: string) returns (config: RamConfig, icons: seq<Star>)
    ensures config == RamConfigFor(value)
    ensures |icons| == RatingSize
    ensures forall j :: 0 <= j < RatingSize ==> (icons[j] == Solid <==> j < config.stars)
    ensures SolidCount(icons) == config.stars
  {
    config := RamConfigFor(value);
    icons := [];
    for i := 1 to RatingSize + 1
      invariant icons == StarRow(i - 1, config.stars)
    {
      var star := if i <= config.stars then Solid else Outline;
      icons := icons + [star];
    }
    StarRowSolidCount(RatingSize, config.stars);
  }
}
