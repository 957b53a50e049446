/**
 The text the alias display shows for one source: its destinations joined
 with a comma and a space, in the order they were seen.
 */
module Destinations {

  /** Placed between two destinations of the same source. */
  const Separator: string := ", "

  /** The destinations joined left to right, as the display builds the text:
      the first one bare, each later one after a separator. Every destination
      is kept in full and exactly one separator stands between each
      neighbouring pair. */
  function Join(ds: seq<string>): (r: string)
    ensures |ds| > 0 ==> |r| == TotalLength(ds) + 2 * (|ds| - 1)
  {
    if |ds| == 0 then ""
    else if |ds| == 1 then ds[0]
    else Join(ds[..|ds| - 1]) + Separator + ds[|ds| - 1]
  }

  /** Total length of the destinations themselves. */
  function TotalLength(ds: seq<string>): nat
  {
    if |ds| == 0 then 0 else TotalLength(ds[..|ds| - 1]) + |ds[|ds| - 1]|
  }

  /** Adding one more destination appends exactly a separator and that
      destination, and nothing else changes. */
  lemma JoinAppend(ds: seq<string>, d: string)
    requires |ds| > 0
    ensures Join(ds + [d]) == Join(ds) + Separator + d
  {
    assert (ds + [d])[..|ds|] == ds;
  }

  /** Joining two non-empty runs of destinations is joining each run and
      putting one separator between them. */
  lemma {:induction false} JoinConcat(a: seq<string>, b: seq<string>)
    requires |a| > 0 && |b| > 0
    ensures Join(a + b) == Join(a) + Separator + Join(b)
    decreases |b|
  {
    if |b| == 1 {
      JoinAppend(a, b[0]);
      assert a + b == a + [b[0]];
    } else {
      var init := b[..|b| - 1];
      var d := b[|b| - 1];
      assert b == init + [d];
      assert a + b == (a + init) + [d];
      JoinConcat(a, init);
      JoinAppend(a + init, d);
      JoinAppend(init, d);
    }
  }

  /** The joined text starts with the first destination itself, stored
      bare; unless that destination is empty, no separator leads. */
  lemma {:induction false} JoinStartsWithFirst(ds: seq<string>)
    requires |ds| > 0
    ensures |ds[0]| <= |Join(ds)| && Join(ds)[..|ds[0]|] == ds[0]
  {
    if |ds| > 1 {
      var init := ds[..|ds| - 1];
      JoinStartsWithFirst(init);
      assert init[0] == ds[0];
      assert Join(ds) == Join(init) + (Separator + ds[|ds| - 1]);
    }
  }
}
