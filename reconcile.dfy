/** The merge pass: every lower-cased name from either source, in sorted
    order, is looked up in what is left of both lists; each hit is taken out
    of its list, the pair is merged, and the records that keep a route are
    appended to the output. */
module Reconcile {
  import opened Wrappers
  import opened Text
  import opened Order
  import opened Seqs
  import opened Records
  import opened Resolver
  import opened Fields

  /** `s.get("name", "").lower()` for a PsychonautWiki record. */
  function PwKey(p: PwRec): string {
    Lower(p.name)
  }

  /** `s.get("name", "").lower()` for a TripSit factsheet. */
  function TsKey(t: TsRec): string {
    Lower(t.name.GetOr(""))
  }

  /** The names the merge walks through: the lower-cased `name` of every
      record of both sources, each once, in ascending order. */
  function AllSubstanceNames(pw: seq<PwRec>, ts: seq<TsRec>): (r: seq<string>)
    ensures StrictlySorted(r)
    ensures forall x :: x in r <==>
      (exists p :: p in pw && PwKey(p) == x) || (exists t :: t in ts && TsKey(t) == x)
    ensures forall x :: x in r ==> IsLowered(x)
  {
    MapMembers(PwKey, pw);
    MapMembers(TsKey, ts);
    forall p | p in pw ensures IsLowered(PwKey(p)) {
      LowerIsLowered(p.name);
    }
    forall t | t in ts ensures IsLowered(TsKey(t)) {
      LowerIsLowered(t.name.GetOr(""));
    }
    SortedDistinct(Map(PwKey, pw) + Map(TsKey, ts))
  }

  /** What one name found: the record taken from each list, if any. */
  datatype Hit = Hit(key: string, pw: Option<PwRec>, ts: Option<TsRec>)

  /** The two lists as the loop mutates them. */
  datatype Pools = Pools(pw: seq<PwRec>, ts: seq<TsRec>)

  /** The hits of a run of names and the lists left over after it. */
  datatype Matching = Matching(hits: seq<Hit>, left: Pools)

  /** One name's lookups: the first match in each list, removed from it. */
  function TakeBoth(key: string, pools: Pools): (Hit, Pools) {
    var p := Take(pools.pw, key, PwKeys);
    var t := Take(pools.ts, key, TsKeys);
    (Hit(key, p.found, t.found), Pools(p.rest, t.rest))
  }

  /** The lookups of every name in turn, each one against the lists the
      earlier ones left. */
  function MatchAll(keys: seq<string>, pools: Pools): (m: Matching)
    ensures |m.hits| == |keys|
    ensures forall i :: 0 <= i < |keys| ==> m.hits[i].key == keys[i]
  {
    if keys == [] then Matching([], pools)
    else
      var (h, next) := TakeBoth(keys[0], pools);
      var m := MatchAll(keys[1..], next);
      Matching([h] + m.hits, m.left)
  }

  /** How one hit becomes a record: MergeRecords in the merge pass. */
  type Merge = (Option<PwRec>, Option<TsRec>) -> Result<Canonical, Failure>

  /** A hit for which at least one list had a record. */
  predicate Present(h: Hit) {
    h.pw.Some? || h.ts.Some?
  }

  /** Hit `j` has a record and merging it fails. */
  predicate FailsAt(hits: seq<Hit>, merge: Merge, j: nat) {
    j < |hits| && Present(hits[j]) && merge(hits[j].pw, hits[j].ts).Err?
  }

  /** Hit `j` is the first one whose merge fails. */
  predicate FirstFailureAt(hits: seq<Hit>, merge: Merge, j: nat) {
    FailsAt(hits, merge, j) && forall k: nat :: k < j ==> !FailsAt(hits, merge, k)
  }

  /** Hit `j` has a record that merges into a record with a route. */
  predicate KeptAt(hits: seq<Hit>, merge: Merge, j: nat) {
    j < |hits| && Present(hits[j])
    && merge(hits[j].pw, hits[j].ts).Ok? && merge(hits[j].pw, hits[j].ts).value.roas != []
  }

  /** Hit `j + 1` of `hits` is hit `j` of its tail. */
  lemma ShiftAt(hits: seq<Hit>, merge: Merge, j: nat)
    requires hits != []
    ensures FailsAt(hits[1..], merge, j) <==> FailsAt(hits, merge, j + 1)
    ensures KeptAt(hits[1..], merge, j) <==> KeptAt(hits, merge, j + 1)
    ensures j < |hits| - 1 ==> hits[1..][j] == hits[j + 1]
  {
  }

  /** `r` accounts for every hit: it fails exactly when some hit's merge
      fails, with the error of the first such hit, and otherwise it holds the
      record of every hit that merges into a record with a route. */
  ghost predicate Complete(hits: seq<Hit>, merge: Merge, r: Result<seq<Canonical>, Failure>) {
    && (r.Err? <==> exists j: nat :: FailsAt(hits, merge, j))
    && (r.Err? ==>
          exists j: nat :: FirstFailureAt(hits, merge, j) && r.error == merge(hits[j].pw, hits[j].ts).error)
    && (r.Ok? ==>
          forall j: nat :: KeptAt(hits, merge, j) ==> merge(hits[j].pw, hits[j].ts).value in r.value)
  }

  /** The output built from a run of hits: a hit with neither record is
      skipped, the others are merged with `merge`, and a merged record without
      a route is dropped; the first failure ends everything. */
  function Assemble(hits: seq<Hit>, merge: Merge): (r: Result<seq<Canonical>, Failure>)
    ensures Complete(hits, merge, r)
    ensures r.Ok? ==> |r.value| <= |hits|
    ensures r.Ok? ==> forall k :: 0 <= k < |r.value| ==> MergedFrom(hits, merge, r.value[k])
  {
    if hits == [] then Ok([])
    else
      var rest := Assemble(hits[1..], merge);
      CompleteCons(hits, merge, rest);
      SoundCons(hits, merge, rest);
      Step(hits[0], merge, rest)
  }

  /** Hit `h` in front of the output `rest` of the hits after it. */
  function Step(h: Hit, merge: Merge, rest: Result<seq<Canonical>, Failure>): Result<seq<Canonical>, Failure> {
    if !Present(h) then rest
    else
      var merged := merge(h.pw, h.ts);
      if merged.Err? then Err(merged.error)
      else if rest.Err? || merged.value.roas == [] then rest
      else Ok([merged.value] + rest.value)
  }

  /** One step of Assemble keeps it complete. */
  lemma CompleteCons(hits: seq<Hit>, merge: Merge, rest: Result<seq<Canonical>, Failure>)
    requires hits != [] && Complete(hits[1..], merge, rest)
    ensures Complete(hits, merge, Step(hits[0], merge, rest))
  {
    var r := Step(hits[0], merge, rest);
    forall j: nat | FailsAt(hits[1..], merge, j) ensures FailsAt(hits, merge, j + 1) {
      ShiftAt(hits, merge, j);
    }
    if FailsAt(hits, merge, 0) {
      assert FirstFailureAt(hits, merge, 0);
    } else {
      forall j: nat | 0 < j && FailsAt(hits, merge, j) ensures FailsAt(hits[1..], merge, j - 1) {
        ShiftAt(hits, merge, j - 1);
      }
      FirstFailureShift(hits, merge, rest);
      assert r == rest || (r.Ok? && rest.Ok? && r.value == [r.value[0]] + rest.value);
      forall j: nat | 0 < j && KeptAt(hits, merge, j) && rest.Ok?
        ensures merge(hits[j].pw, hits[j].ts).value in rest.value
      {
        ShiftAt(hits, merge, j - 1);
      }
    }
  }

  /** One step of Assemble adds at most one record, and only a merged one. */
  lemma SoundCons(hits: seq<Hit>, merge: Merge, rest: Result<seq<Canonical>, Failure>)
    requires hits != []
    requires rest.Ok? ==> |rest.value| <= |hits| - 1
    requires rest.Ok? ==> forall k :: 0 <= k < |rest.value| ==> MergedFrom(hits[1..], merge, rest.value[k])
    ensures var r := Step(hits[0], merge, rest);
            r.Ok? ==> |r.value| <= |hits| && forall k :: 0 <= k < |r.value| ==> MergedFrom(hits, merge, r.value[k])
  {
    var r := Step(hits[0], merge, rest);
    MergedFromTail(hits, merge);
    if r.Ok? && r != rest {
      assert ProducedAt(hits, merge, r.value[0], 0);
      assert forall k :: 1 <= k < |r.value| ==> r.value[k] == rest.value[k - 1];
    }
  }

  /** The first failure of the tail is the first failure of the whole run
      when the first hit does not fail. */
  lemma FirstFailureShift(hits: seq<Hit>, merge: Merge, rest: Result<seq<Canonical>, Failure>)
    requires hits != [] && !FailsAt(hits, merge, 0) && Complete(hits[1..], merge, rest)
    ensures rest.Err? ==>
              exists j: nat :: FirstFailureAt(hits, merge, j) && rest.error == merge(hits[j].pw, hits[j].ts).error
  {
    if rest.Err? {
      var j: nat :| FirstFailureAt(hits[1..], merge, j) && rest.error == merge(hits[1..][j].pw, hits[1..][j].ts).error;
      ShiftAt(hits, merge, j);
      forall k: nat | 0 < k < j + 1 ensures !FailsAt(hits, merge, k) {
        ShiftAt(hits, merge, k - 1);
      }
      assert FirstFailureAt(hits, merge, j + 1);
    }
  }

  /** Hit `j` has a record and merges into `c`. */
  predicate ProducedAt(hits: seq<Hit>, merge: Merge, c: Canonical, j: nat) {
    j < |hits| && (hits[j].pw.Some? || hits[j].ts.Some?)
    && merge(hits[j].pw, hits[j].ts) == Ok(c)
  }

  /** `c` has a route and is what `merge` makes of one of the hits. */
  ghost predicate MergedFrom(hits: seq<Hit>, merge: Merge, c: Canonical) {
    c.roas != [] && exists j: nat :: ProducedAt(hits, merge, c, j)
  }

  lemma MergedFromTail(hits: seq<Hit>, merge: Merge)
    requires hits != []
    ensures forall c :: MergedFrom(hits[1..], merge, c) ==> MergedFrom(hits, merge, c)
  {
    forall c | MergedFrom(hits[1..], merge, c) ensures MergedFrom(hits, merge, c) {
      var j: nat :| ProducedAt(hits[1..], merge, c, j);
      assert ProducedAt(hits, merge, c, j + 1);
    }
  }

  /** The output of the merge pass over the two fetched lists. */
  function Reconciled(pw: seq<PwRec>, ts: seq<TsRec>): Result<seq<Canonical>, Failure> {
    Assemble(MatchAll(AllSubstanceNames(pw, ts), Pools(pw, ts)).hits, MergeRecords)
  }

  /** MatchAll of a non-empty run: the first name's lookups, then the rest. */
  lemma MatchAllAt(keys: seq<string>, i: nat, pools: Pools)
    requires i < |keys|
    ensures MatchAll(keys[i..], pools).hits
         == [TakeBoth(keys[i], pools).0] + MatchAll(keys[i + 1..], TakeBoth(keys[i], pools).1).hits
  {
    assert keys[i..][1..] == keys[i + 1..];
  }

  /** `r1`, then `r2` unless `r1` failed. */
  function Then(r1: Result<seq<Canonical>, Failure>, r2: Result<seq<Canonical>, Failure>): Result<seq<Canonical>, Failure> {
    if r1.Err? then r1 else Prepend(r1.value, r2)
  }

  /** What a single hit contributes: nothing when neither list had a record
      or the merged record has no route, the record otherwise, or the failure. */
  lemma AssembleOne(h: Hit, merge: Merge)
    ensures Assemble([h], merge)
         == if h.pw.None? && h.ts.None? then Ok([])
            else if merge(h.pw, h.ts).Err? then Err(merge(h.pw, h.ts).error)
            else if merge(h.pw, h.ts).value.roas == [] then Ok([])
            else Ok([merge(h.pw, h.ts).value])
  {
    assert [h][1..] == [];
    if !(h.pw.None? && h.ts.None?) && merge(h.pw, h.ts).Ok? {
      assert [merge(h.pw, h.ts).value] + [] == [merge(h.pw, h.ts).value];
    }
  }

  /** Assembling a run of hits is assembling its first hit, then the rest. */
  lemma AssembleCons(h: Hit, rest: seq<Hit>, merge: Merge)
    ensures Assemble([h] + rest, merge) == Then(Assemble([h], merge), Assemble(rest, merge))
  {
    assert ([h] + rest)[1..] == rest;
    AssembleOne(h, merge);
    var r := Assemble(rest, merge);
    if r.Ok? {
      assert [] + r.value == r.value;
    }
  }

  /** One iteration of the merge loop: the lookups of `name` in both lists
      with the hits removed, and what the iteration appends (nothing, one
      record, or the exception that ends the run). */
  method MergeName(name: string, pwLeft: seq<PwRec>, tsLeft: seq<TsRec>)
    returns (pwNext: seq<PwRec>, tsNext: seq<TsRec>, emitted: Result<seq<Canonical>, Failure>)
    ensures Pools(pwNext, tsNext) == TakeBoth(name, Pools(pwLeft, tsLeft)).1
    ensures emitted == Assemble([TakeBoth(name, Pools(pwLeft, tsLeft)).0], MergeRecords)
  {
    pwNext, tsNext := pwLeft, tsLeft;
    var pwSubstance := FindSubstance(pwNext, name, PwKeys);
    if pwSubstance.Some? {
      pwNext := RemoveFirst(pwNext, pwSubstance.value);
    }
    var tsSubstance := FindSubstance(tsNext, name, TsKeys);
    if tsSubstance.Some? {
      tsNext := RemoveFirst(tsNext, tsSubstance.value);
    }
    AssembleOne(Hit(name, pwSubstance, tsSubstance), MergeRecords);
    if pwSubstance.None? && tsSubstance.None? {
      return pwNext, tsNext, Ok([]);
    }
    var merged := MergeFound(pwSubstance, tsSubstance);
    if merged.Err? {
      return pwNext, tsNext, Err(merged.error);
    }
    if merged.value.roas == [] {
      return pwNext, tsNext, Ok([]);
    }
    return pwNext, tsNext, Ok([merged.value]);
  }

  /** The merge loop. */
  method Reconcile(pwData: seq<PwRec>, tsData: seq<TsRec>) returns (r: Result<seq<Canonical>, Failure>)
    ensures r == Reconciled(pwData, tsData)
  {
    var names := AllSubstanceNames(pwData, tsData);
    var pwLeft, tsLeft := pwData, tsData;
    var substances: seq<Canonical> := [];
    assert names[0..] == names;
    assert forall out: seq<Canonical> :: [] + out == out;
    for i := 0 to |names|
      invariant Reconciled(pwData, tsData)
             == Prepend(substances, Assemble(MatchAll(names[i..], Pools(pwLeft, tsLeft)).hits, MergeRecords))
    {
      MatchAllAt(names, i, Pools(pwLeft, tsLeft));
      var step := TakeBoth(names[i], Pools(pwLeft, tsLeft));
      var rest := MatchAll(names[i + 1..], step.1).hits;
      AssembleCons(step.0, rest, MergeRecords);
      var emitted;
      pwLeft, tsLeft, emitted := MergeName(names[i], pwLeft, tsLeft);
      if emitted.Err? {
        return Err(emitted.error);
      }
      PrependPrepend(substances, emitted.value, Assemble(rest, MergeRecords));
      substances := substances + emitted.value;
    }
    assert names[|names|..] == [];
    assert substances + [] == substances;
    return Ok(substances);
  }
}
