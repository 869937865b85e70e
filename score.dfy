/**
 * The score panel of the dashboard: the severity colour of a score, looked
 * up in a fixed table of half-open bands, and the list of recipe rows,
 * highest score first, each coloured by its own score. The Dash widgets
 * and the two-decimal label are presentation and are not modelled.
 */
module Score {
  import opened Wrappers
  import opened Sorting

  datatype Color = Danger | Warning | Success

  /** Scores `low <= s < high` get `color`. */
  datatype Band = Band(low: real, high: real, color: Color)

  /** The table `progress_color`. */
  const ProgressColor: seq<Band> :=
    [Band(-10.0, 5.0, Danger), Band(5.0, 8.0, Warning), Band(8.0, 10.0, Success)]

  predicate InBand(b: Band, score: real)
  {
    b.low <= score < b.high
  }

  /**
   * Every band is non-empty and each one ends where the next begins, so
   * the bands tile `[bands[0].low, last high)` without overlap.
   */
  predicate Contiguous(bands: seq<Band>)
  {
    (forall i :: 0 <= i < |bands| ==> bands[i].low < bands[i].high) &&
    (forall i :: 0 <= i < |bands| - 1 ==> bands[i].high == bands[i + 1].low)
  }

  /** No band before index `i` holds `score`. */
  predicate NoneBefore(bands: seq<Band>, score: real, i: nat)
    requires i <= |bands|
  {
    forall j :: 0 <= j < i ==> !InBand(bands[j], score)
  }

  /**
   * The scan of the table with early return: the colour of the first band
   * holding `score`, or `None` when no band holds it.
   */
  function FirstMatch(bands: seq<Band>, score: real): (r: Option<Color>)
    ensures r.None? <==> NoneBefore(bands, score, |bands|)
    ensures forall i :: 0 <= i < |bands| && InBand(bands[i], score) && NoneBefore(bands, score, i)
                        ==> r == Some(bands[i].color)
  {
    if bands == [] then None
    else if InBand(bands[0], score) then Some(bands[0].color)
    else FirstMatch(bands[1..], score)
  }

  /** `get_progress_bar_color`: the band of a score, boundaries included exactly. */
  function ProgressBarColor(score: real): (r: Option<Color>)
    ensures r == Some(Danger) <==> -10.0 <= score < 5.0
    ensures r == Some(Warning) <==> 5.0 <= score < 8.0
    ensures r == Some(Success) <==> 8.0 <= score < 10.0
    ensures r == None <==> score < -10.0 || 10.0 <= score
  {
    var b0, b1, b2 := InBand(ProgressColor[0], score),
                      InBand(ProgressColor[1], score), InBand(ProgressColor[2], score);
    assert NoneBefore(ProgressColor, score, 1) <==> !b0;
    assert NoneBefore(ProgressColor, score, 2) <==> !b0 && !b1;
    assert NoneBefore(ProgressColor, score, 3) <==> !b0 && !b1 && !b2;
    FirstMatch(ProgressColor, score)
  }

  /**
   * The lemmas below for contiguous tables apply to `progress_color`. For
   * that table the ensures of `ProgressBarColor` already decide the colour
   * of every score directly, so it needs no separate uniqueness lemma.
   */
  lemma ProgressColorContiguous()
    ensures Contiguous(ProgressColor)
  {
  }

  /** In a contiguous table every band lies wholly below every later one. */
  lemma {:induction false} BandsOrdered(bands: seq<Band>, i: nat, j: nat)
    requires Contiguous(bands)
    requires i < j < |bands|
    ensures bands[i].high <= bands[j].low
    decreases j - i
  {
    if j > i + 1 {
      BandsOrdered(bands, i, j - 1);
    }
  }

  /** At most one band of a contiguous table holds a given score. */
  lemma AtMostOneBand(bands: seq<Band>, score: real, i: nat, j: nat)
    requires Contiguous(bands)
    requires i < |bands| && j < |bands|
    requires InBand(bands[i], score) && InBand(bands[j], score)
    ensures i == j
  {
    if i < j {
      BandsOrdered(bands, i, j);
    } else if j < i {
      BandsOrdered(bands, j, i);
    }
  }

  /** So the first-match scan returns the colour of the one band holding the score. */
  lemma FirstMatchUnique(bands: seq<Band>, score: real, i: nat)
    requires Contiguous(bands)
    requires i < |bands| && InBand(bands[i], score)
    ensures FirstMatch(bands, score) == Some(bands[i].color)
  {
    forall j | 0 <= j < i
      ensures !InBand(bands[j], score)
    {
      if InBand(bands[j], score) {
        AtMostOneBand(bands, score, i, j);
      }
    }
  }

  /**
   * A contiguous table matches exactly the scores from its first band's
   * lower bound up to, and not including, its last band's upper bound.
   */
  lemma {:induction false} FirstMatchCovers(bands: seq<Band>, score: real)
    requires Contiguous(bands) && |bands| > 0
    ensures FirstMatch(bands, score).Some? <==>
            bands[0].low <= score < bands[|bands| - 1].high
  {
    var last := |bands| - 1;
    if bands[0].low <= score < bands[last].high && bands[0].high <= score {
      assert |bands| >= 2;
      var rest := bands[1..];
      assert Contiguous(rest) by {
        forall i | 0 <= i < |rest| - 1 ensures rest[i].high == rest[i + 1].low {
          assert rest[i] == bands[i + 1] && rest[i + 1] == bands[i + 2];
        }
      }
      assert rest[|rest| - 1] == bands[last];
      FirstMatchCovers(rest, score);
    }
    if FirstMatch(bands, score).Some? {
      var i :| 0 <= i < |bands| && InBand(bands[i], score);
      if 0 < i {
        BandsOrdered(bands, 0, i);
      }
      if i < last {
        BandsOrdered(bands, i, last);
      }
    }
  }

  /** One row of the panel: a recipe's name, its score and its bar colour. */
  datatype Row = Row(name: string, score: real, color: Option<Color>)

  /** The (name, score) pairs the rows show. */
  function Entries(rows: seq<Row>): seq<Entry>
  {
    seq(|rows|, k requires 0 <= k < |rows| => (rows[k].name, rows[k].score))
  }

  /** Every row's colour is the bar colour of its own score. */
  predicate ColoredByScore(rows: seq<Row>)
  {
    forall k :: 0 <= k < |rows| ==> rows[k].color == ProgressBarColor(rows[k].score)
  }

  /** Distinct names: the items of a dict. */
  predicate DistinctNames(s: seq<Entry>)
  {
    forall i, j :: 0 <= i < j < |s| ==> s[i].0 != s[j].0
  }

  /**
   * `progress_rows`: sort the recipes by score, highest first and stably,
   * then append one row per recipe, coloured by its own score. Because the
   * names are distinct, rebuilding a dict from the sorted items keeps all
   * of them in sorted order.
   */
  method ProgressRows(recipeScores: seq<Entry>) returns (rows: seq<Row>)
    requires DistinctNames(recipeScores)
    ensures |rows| == |recipeScores|
    ensures multiset(Entries(rows)) == multiset(recipeScores)
    ensures forall i, j :: 0 <= i < j < |rows| ==> rows[i].score >= rows[j].score
    ensures forall v :: WithScore(Entries(rows), v) == WithScore(recipeScores, v)
    ensures ColoredByScore(rows)
  {
    var sorted := SortByScoreDesc(recipeScores);
    rows := [];
    for i := 0 to |sorted|
      invariant Entries(rows) == sorted[..i]
      invariant ColoredByScore(rows)
    {
      var (name, score) := sorted[i];
      var row := Row(name, score, ProgressBarColor(score));
      assert Entries(rows + [row]) == Entries(rows) + [(name, score)];
      assert sorted[..i + 1] == sorted[..i] + [sorted[i]];
      rows := rows + [row];
    }
    assert sorted[..|sorted|] == sorted;
    SortedRows(recipeScores, rows);
  }

  /** What the rows of the sorted items inherit from the sort. */
  lemma SortedRows(recipeScores: seq<Entry>, rows: seq<Row>)
    requires Entries(rows) == SortByScoreDesc(recipeScores)
    ensures |rows| == |recipeScores|
    ensures multiset(Entries(rows)) == multiset(recipeScores)
    ensures forall i, j :: 0 <= i < j < |rows| ==> rows[i].score >= rows[j].score
    ensures forall v :: WithScore(Entries(rows), v) == WithScore(recipeScores, v)
  {
    SortPermutation(recipeScores);
    SortNonIncreasing(recipeScores);
    assert |Entries(rows)| == |recipeScores| by {
      assert |multiset(Entries(rows))| == |multiset(recipeScores)|;
    }
    forall i, j | 0 <= i < j < |rows| ensures rows[i].score >= rows[j].score {
      assert Entries(rows)[i].1 >= Entries(rows)[j].1;
    }
    forall v ensures WithScore(Entries(rows), v) == WithScore(recipeScores, v) {
      SortStable(recipeScores, v);
    }
  }
}
