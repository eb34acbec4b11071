/** The per-frame classifier: every profile is scored by its matched-pixel
    count divided by its priority, and the first profile with the greatest
    score among those matching more than 1000 pixels wins. The pixel counts
    come from the image-processing collaborator, one per profile in table
    order. */
module Classifier {
  import opened Wrappers
  import opened OrderedTable
  import opened Profiles

  /** A profile must match strictly more pixels than this to compete. */
  const PixelThreshold := 1000

  /** `pixels * (1 / priority)`, computed exactly. */
  function Score(pixels: nat, p: Profile): (r: real)
    ensures r >= 0.0
    ensures r * (EffectivePriority(p) as real) == pixels as real
  {
    (pixels as real) / (EffectivePriority(p) as real)
  }

  predicate Gated(pixels: nat)
  {
    pixels > PixelThreshold
  }

  lemma ScorePositive(pixels: nat, p: Profile)
    ensures Gated(pixels) ==> Score(pixels, p) > 0.0
  {
    var q := EffectivePriority(p) as real;
    assert Score(pixels, p) * q == pixels as real;
  }

  /** The loop's running best: score, colour name, and the entry whose mask it is. */
  datatype Best = Best(score: real, color: string, index: Option<nat>)

  const NoWinner := Best(0.0, "", None)

  /** One pass of the loop body: entry `i`, named `name`, replaces the
      running best when it is gated and scores strictly more. */
  function Consider(b: Best, i: nat, name: string, score: real, gated: bool): Best
  {
    if gated && score > b.score then Best(score, name, Some(i)) else b
  }

  /** Entry `w` is, among the first `n` entries, a gated entry with the
      greatest score and the first one to reach that score. */
  ghost predicate FirstMaxIn(t: Table<Profile>, px: seq<nat>, n: nat, w: nat)
    requires |px| == |t| && n <= |t|
  {
    && w < n
    && Gated(px[w])
    && (forall j :: 0 <= j < n && Gated(px[j]) ==> Score(px[j], t[j].1) <= Score(px[w], t[w].1))
    && (forall j :: 0 <= j < w && Gated(px[j]) ==> Score(px[j], t[j].1) < Score(px[w], t[w].1))
  }

  /** The state of the scoring loop after the first `n` entries. */
  function Scan(t: Table<Profile>, px: seq<nat>, n: nat): (b: Best)
    requires |px| == |t| && n <= |t|
    ensures b.index.None? <==> forall j :: 0 <= j < n ==> !Gated(px[j])
    ensures b.index.None? ==> b == NoWinner
    ensures b.index.Some? ==>
      && FirstMaxIn(t, px, n, b.index.value)
      && b.color == t[b.index.value].0
      && b.score == Score(px[b.index.value], t[b.index.value].1)
    decreases n
  {
    if n == 0 then NoWinner
    else
      ScorePositive(px[n - 1], t[n - 1].1);
      Consider(Scan(t, px, n - 1), n - 1, t[n - 1].0, Score(px[n - 1], t[n - 1].1), Gated(px[n - 1]))
  }

  /** One frame's classification over the whole table. */
  function Classify(t: Table<Profile>, px: seq<nat>): (b: Best)
    requires |px| == |t|
    ensures b.index.None? ==> b == NoWinner
    ensures b.index.Some? ==>
      && b.index.value < |t| && Gated(px[b.index.value])
      && b.color == t[b.index.value].0
      && b.score == Score(px[b.index.value], t[b.index.value].1)
  {
    Scan(t, px, |t|)
  }

  /** The winner is exactly the first gated entry of greatest score; with
      no gated entry there is no winner and the colour name is empty. */
  lemma ClassifyWinner(t: Table<Profile>, px: seq<nat>, w: nat)
    requires |px| == |t|
    ensures Classify(t, px).index == Some(w) <==> FirstMaxIn(t, px, |t|, w)
    ensures Classify(t, px).index.None? <==> forall j :: 0 <= j < |t| ==> !Gated(px[j])
    ensures Classify(t, px).index.None? ==> Classify(t, px).color == ""
  {
  }

  /** An entry with at most 1000 matched pixels never wins, whatever its
      score and wherever it stands in the table. */
  lemma ClassifyGate(t: Table<Profile>, px: seq<nat>, j: nat)
    requires |px| == |t|
    requires j < |t|
    ensures px[j] <= PixelThreshold ==> Classify(t, px).index != Some(j)
  {
  }

  /** An entry never wins against an earlier gated entry of equal or
      greater score. */
  lemma ClassifyFirstWins(t: Table<Profile>, px: seq<nat>, i: nat, j: nat)
    requires |px| == |t|
    requires i < j < |t|
    ensures Gated(px[i]) && Score(px[i], t[i].1) >= Score(px[j], t[j].1) ==>
      Classify(t, px).index != Some(j)
  {
  }

  /** Every missing priority replaced by 5 when the table is built. */
  function DefaultPriorities(t: Table<Profile>): (r: Table<Profile>)
  {
    Project(t, [], (p: Profile) => p.(priority := Some(EffectivePriority(p))))
  }

  /** The scan depends on the entries only through their names and scores. */
  lemma {:induction false} ScanCongruent(t1: Table<Profile>, t2: Table<Profile>, px: seq<nat>, n: nat)
    requires |px| == |t1| == |t2| && n <= |t1|
    requires forall i :: 0 <= i < n ==> t1[i].0 == t2[i].0 && Score(px[i], t1[i].1) == Score(px[i], t2[i].1)
    ensures Scan(t1, px, n) == Scan(t2, px, n)
    decreases n
  {
    if n > 0 {
      ScanCongruent(t1, t2, px, n - 1);
      var i := n - 1;
      assert t1[i].0 == t2[i].0 && Score(px[i], t1[i].1) == Score(px[i], t2[i].1);
    }
  }

  lemma DefaultPrioritiesClassifySame(t: Table<Profile>, px: seq<nat>)
    requires |px| == |t|
    ensures |DefaultPriorities(t)| == |t|
    ensures Classify(DefaultPriorities(t), px) == Classify(t, px)
  {
    var d := DefaultPriorities(t);
    ProjectAll(t, (p: Profile) => p.(priority := Some(EffectivePriority(p))));
    forall i | 0 <= i < |t|
      ensures d[i].0 == t[i].0 && Score(px[i], d[i].1) == Score(px[i], t[i].1)
    {
      assert EffectivePriority(d[i].1) == EffectivePriority(t[i].1);
    }
    ScanCongruent(d, t, px, |t|);
  }
}
