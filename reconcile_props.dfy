/** What the merge pass guarantees as a whole: each source record is used at
    most once, a hit really matches its name, a name that found nothing leaves
    no matching record behind, every output record is well formed, and the
    output is never longer than the PsychonautWiki list.  Display names are
    not unique. */
module ReconcileProps {
  import opened Wrappers
  import opened Text
  import opened Order
  import opened Records
  import opened Resolver
  import opened Fields
  import opened Reconcile

  /** An optional record as a list of zero or one records. */
  function AsSeq<T>(o: Option<T>): seq<T> {
    if o.Some? then [o.value] else []
  }

  /** The PsychonautWiki records the hits took, in order. */
  function FoundPw(hits: seq<Hit>): seq<PwRec> {
    if hits == [] then [] else AsSeq(hits[0].pw) + FoundPw(hits[1..])
  }

  /** The TripSit factsheets the hits took, in order. */
  function FoundTs(hits: seq<Hit>): seq<TsRec> {
    if hits == [] then [] else AsSeq(hits[0].ts) + FoundTs(hits[1..])
  }

  /** Taking a record out of a list loses nothing. */
  lemma TakeConserves<T>(data: seq<T>, name: string, keys: T -> NameKeys)
    ensures multiset(AsSeq(Take(data, name, keys).found)) + multiset(Take(data, name, keys).rest)
         == multiset(data)
  {
  }

  /** MatchAll of a non-empty run of names, unfolded once. */
  lemma MatchAllHead(keys: seq<string>, pools: Pools)
    requires keys != []
    ensures MatchAll(keys, pools).hits
         == [TakeBoth(keys[0], pools).0] + MatchAll(keys[1..], TakeBoth(keys[0], pools).1).hits
    ensures MatchAll(keys, pools).left == MatchAll(keys[1..], TakeBoth(keys[0], pools).1).left
  {
  }

  /** Removing a record as soon as it is found means no record is merged
      twice: the PsychonautWiki records taken plus those left are exactly the
      input list. */
  lemma {:induction false} MatchAllConservesPw(keys: seq<string>, pools: Pools)
    ensures multiset(FoundPw(MatchAll(keys, pools).hits)) + multiset(MatchAll(keys, pools).left.pw)
         == multiset(pools.pw)
  {
    if keys != [] {
      var (h, next) := TakeBoth(keys[0], pools);
      var m := MatchAll(keys[1..], next);
      MatchAllConservesPw(keys[1..], next);
      MatchAllHead(keys, pools);
      assert ([h] + m.hits)[1..] == m.hits;
      assert FoundPw([h] + m.hits) == AsSeq(h.pw) + FoundPw(m.hits);
      TakeConserves(pools.pw, keys[0], PwKeys);
    }
  }

  /** The same for the TripSit list. */
  lemma {:induction false} MatchAllConservesTs(keys: seq<string>, pools: Pools)
    ensures multiset(FoundTs(MatchAll(keys, pools).hits)) + multiset(MatchAll(keys, pools).left.ts)
         == multiset(pools.ts)
  {
    if keys != [] {
      var (h, next) := TakeBoth(keys[0], pools);
      var m := MatchAll(keys[1..], next);
      MatchAllConservesTs(keys[1..], next);
      MatchAllHead(keys, pools);
      assert ([h] + m.hits)[1..] == m.hits;
      assert FoundTs([h] + m.hits) == AsSeq(h.ts) + FoundTs(m.hits);
      TakeConserves(pools.ts, keys[0], TsKeys);
    }
  }

  /** Every record a name took matches that name. */
  lemma {:induction false} MatchAllHitsMatch(keys: seq<string>, pools: Pools)
    ensures forall i :: 0 <= i < |keys| && MatchAll(keys, pools).hits[i].pw.Some? ==>
              SubstanceNameMatch(keys[i], PwKeys(MatchAll(keys, pools).hits[i].pw.value))
    ensures forall i :: 0 <= i < |keys| && MatchAll(keys, pools).hits[i].ts.Some? ==>
              SubstanceNameMatch(keys[i], TsKeys(MatchAll(keys, pools).hits[i].ts.value))
  {
    if keys != [] {
      var (h, next) := TakeBoth(keys[0], pools);
      var m := MatchAll(keys[1..], next);
      var hits := MatchAll(keys, pools).hits;
      MatchAllHitsMatch(keys[1..], next);
      MatchAllHead(keys, pools);
      forall i | 1 <= i < |keys| ensures keys[i] == keys[1..][i - 1] && hits[i] == m.hits[i - 1] {
      }
    }
  }

  /** The lists left at the end are part of the lists at the start. */
  lemma LeftIsPart(keys: seq<string>, pools: Pools)
    ensures multiset(MatchAll(keys, pools).left.pw) <= multiset(pools.pw)
    ensures multiset(MatchAll(keys, pools).left.ts) <= multiset(pools.ts)
  {
    MatchAllConservesPw(keys, pools);
    MatchAllConservesTs(keys, pools);
  }

  /** A name that found no PsychonautWiki record leaves none behind that it
      would have matched. */
  lemma {:induction false} MatchAllMissesArePw(keys: seq<string>, pools: Pools)
    ensures forall i, p ::
              (0 <= i < |keys| && MatchAll(keys, pools).hits[i].pw.None? && p in MatchAll(keys, pools).left.pw)
              ==> !SubstanceNameMatch(keys[i], PwKeys(p))
  {
    if keys != [] {
      var (h, next) := TakeBoth(keys[0], pools);
      var m := MatchAll(keys[1..], next);
      var hits := MatchAll(keys, pools).hits;
      MatchAllMissesArePw(keys[1..], next);
      LeftIsPart(keys[1..], next);
      MatchAllHead(keys, pools);
      forall i, p | 0 <= i < |keys| && hits[i].pw.None? && p in m.left.pw
        ensures !SubstanceNameMatch(keys[i], PwKeys(p))
      {
        if i == 0 {
          assert p in multiset(next.pw);
        } else {
          assert keys[i] == keys[1..][i - 1] && hits[i] == m.hits[i - 1];
        }
      }
    }
  }

  /** A name that found no TripSit factsheet leaves none behind that it
      would have matched. */
  lemma {:induction false} MatchAllMissesAreTs(keys: seq<string>, pools: Pools)
    ensures forall i, t ::
              (0 <= i < |keys| && MatchAll(keys, pools).hits[i].ts.None? && t in MatchAll(keys, pools).left.ts)
              ==> !SubstanceNameMatch(keys[i], TsKeys(t))
  {
    if keys != [] {
      var (h, next) := TakeBoth(keys[0], pools);
      var m := MatchAll(keys[1..], next);
      var hits := MatchAll(keys, pools).hits;
      MatchAllMissesAreTs(keys[1..], next);
      LeftIsPart(keys[1..], next);
      MatchAllHead(keys, pools);
      forall i, t | 0 <= i < |keys| && hits[i].ts.None? && t in m.left.ts
        ensures !SubstanceNameMatch(keys[i], TsKeys(t))
      {
        if i == 0 {
          assert t in multiset(next.ts);
        } else {
          assert keys[i] == keys[1..][i - 1] && hits[i] == m.hits[i - 1];
        }
      }
    }
  }

  /** Every record of a successful output satisfies Emittable. */
  lemma ReconciledEmittable(pw: seq<PwRec>, ts: seq<TsRec>)
    ensures Reconciled(pw, ts).Ok? ==>
              forall k :: 0 <= k < |Reconciled(pw, ts).value| ==> Emittable(Reconciled(pw, ts).value[k])
  {
    var hits := MatchAll(AllSubstanceNames(pw, ts), Pools(pw, ts)).hits;
    var r := Reconciled(pw, ts);
    if r.Ok? {
      forall k | 0 <= k < |r.value| ensures Emittable(r.value[k]) {
        assert MergedFrom(hits, MergeRecords, r.value[k]);
        var j: nat :| ProducedAt(hits, MergeRecords, r.value[k], j);
        assert MergeRecords(hits[j].pw, hits[j].ts) == Ok(r.value[k]);
      }
    }
  }

  /** When a record without a PsychonautWiki part never survives the merge,
      the output has at most one record per PsychonautWiki record taken. */
  lemma {:induction false} AssembleBound(hits: seq<Hit>, merge: Merge)
    requires forall p, t :: merge(p, t).Ok? && merge(p, t).value.roas != [] ==> p.Some?
    ensures Assemble(hits, merge).Ok? ==> |Assemble(hits, merge).value| <= |FoundPw(hits)|
  {
    if hits != [] {
      AssembleBound(hits[1..], merge);
    }
  }

  /** A TripSit factsheet with no PsychonautWiki record has no route, so it is
      never part of the output. */
  lemma TripSitOnlyIsDropped(t: TsRec)
    ensures MergeRecords(None, Some(t)).Ok? ==> MergeRecords(None, Some(t)).value.roas == []
  {
  }

  /** The output has at most as many records as the PsychonautWiki list. */
  lemma OutputBounded(pw: seq<PwRec>, ts: seq<TsRec>)
    ensures Reconciled(pw, ts).Ok? ==> |Reconciled(pw, ts).value| <= |pw|
  {
    var keys := AllSubstanceNames(pw, ts);
    var m := MatchAll(keys, Pools(pw, ts));
    forall p, t | MergeRecords(p, t).Ok? && MergeRecords(p, t).value.roas != [] ensures p.Some? {
    }
    AssembleBound(m.hits, MergeRecords);
    MatchAllConservesPw(keys, Pools(pw, ts));
    assert |multiset(FoundPw(m.hits))| <= |multiset(pw)|;
  }

  /* Display names need not be unique.  The pages "Alpha" and "Z" both have a
     timed route, and the factsheet "alpha" has the pretty name "Z": the record
     merged for "alpha" takes the shorter name "Z", and so does the record for
     "z". */

  const OralRoute := Roa("Oral", Null, Str("4h"))
  const NoData := PwData(Null, Null, Null, Null, Null)
  const AlphaPage := PwRec("https://psychonautwiki.org/wiki/Alpha", "Alpha", [], NoData, [OralRoute])
  const ZPage := PwRec("https://psychonautwiki.org/wiki/Z", "Z", [], NoData, [OralRoute])
  const AlphaSheet := TsRec(Some("alpha"), Some("Z"), [], None, None, None, None)
  const ExampleHitList := [Hit("alpha", Some(AlphaPage), Some(AlphaSheet)), Hit("z", Some(ZPage), None)]

  lemma ExampleNames()
    ensures AllSubstanceNames([AlphaPage, ZPage], [AlphaSheet]) == ["alpha", "z"]
  {
    var keys := AllSubstanceNames([AlphaPage, ZPage], [AlphaSheet]);
    assert Lower("Alpha") == "alpha" && Lower("alpha") == "alpha" && Lower("Z") == "z";
    assert PwKey(AlphaPage) == "alpha" && PwKey(ZPage) == "z" && TsKey(AlphaSheet) == "alpha";
    assert Less("alpha", "z");
    StrictlySortedUnique(keys, ["alpha", "z"]);
  }

  /** A list whose first record matches gives up that record. */
  lemma TakeHead<T>(data: seq<T>, name: string, keys: T -> NameKeys)
    requires data != [] && SubstanceNameMatch(name, keys(data[0]))
    ensures Take(data, name, keys) == Taken(Some(data[0]), data[1..])
  {
    var r := Take(data, name, keys);
    var i: nat :| FirstMatchAt(data, name, keys, i) && r.found.value == data[i] && r.rest == data[..i] + data[i + 1..];
    assert i == 0;
  }

  lemma ExampleTakeAlpha()
    ensures Take([AlphaPage, ZPage], "alpha", PwKeys) == Taken(Some(AlphaPage), [ZPage])
    ensures Take([AlphaSheet], "alpha", TsKeys) == Taken(Some(AlphaSheet), [])
  {
    assert Lower("Alpha") == "alpha" && Lower("alpha") == "alpha";
    TakeHead([AlphaPage, ZPage], "alpha", PwKeys);
    TakeHead([AlphaSheet], "alpha", TsKeys);
  }

  lemma ExampleTakeZ()
    ensures Take([ZPage], "z", PwKeys) == Taken(Some(ZPage), [])
    ensures Take([], "z", TsKeys) == Taken(None, [])
  {
    assert Lower("Z") == "z" && Lower("z") == "z";
    TakeHead([ZPage], "z", PwKeys);
  }

  /** MatchAll of two names: the first one's lookups, then the second's in what is left. */
  lemma MatchAllTwo(k0: string, k1: string, pools: Pools)
    ensures MatchAll([k0, k1], pools).hits
         == [TakeBoth(k0, pools).0, TakeBoth(k1, TakeBoth(k0, pools).1).0]
  {
    assert [k0, k1][1..] == [k1];
    assert [k1][1..] == [];
  }

  lemma ExampleHits()
    ensures MatchAll(["alpha", "z"], Pools([AlphaPage, ZPage], [AlphaSheet])).hits == ExampleHitList
  {
    MatchAllTwo("alpha", "z", Pools([AlphaPage, ZPage], [AlphaSheet]));
    assert TakeBoth("alpha", Pools([AlphaPage, ZPage], [AlphaSheet]))
        == (Hit("alpha", Some(AlphaPage), Some(AlphaSheet)), Pools([ZPage], [])) by {
      ExampleTakeAlpha();
    }
    assert TakeBoth("z", Pools([ZPage], [])) == (Hit("z", Some(ZPage), None), Pools([], [])) by {
      ExampleTakeZ();
    }
  }

  /** The output for the example is what Assemble makes of its two hits. */
  lemma ExampleReconciled()
    ensures Reconciled([AlphaPage, ZPage], [AlphaSheet]) == Assemble(ExampleHitList, MergeRecords)
  {
    ExampleNames();
    ExampleHits();
  }

  lemma ExampleMergeAlpha()
    ensures MergeRecords(Some(AlphaPage), Some(AlphaSheet)).Ok?
    ensures MergeRecords(Some(AlphaPage), Some(AlphaSheet)).value.name == "Z"
    ensures MergeRecords(Some(AlphaPage), Some(AlphaSheet)).value.roas != []
    ensures MergeRecords(Some(AlphaPage), Some(AlphaSheet)).value.url == AlphaPage.url
  {
    assert NameCandidates(Some(AlphaPage), Some(AlphaSheet)) == ["Alpha", "Z"];
    assert DisplayName(Some(AlphaPage), Some(AlphaSheet)) == Ok("Z");
    assert OralRoute in TimedRoutes([OralRoute]);
  }

  lemma ExampleMergeZ()
    ensures MergeRecords(Some(ZPage), None).Ok?
    ensures MergeRecords(Some(ZPage), None).value.name == "Z"
    ensures MergeRecords(Some(ZPage), None).value.roas != []
    ensures MergeRecords(Some(ZPage), None).value.url == ZPage.url
  {
    assert DisplayName(Some(ZPage), None) == Ok("Z");
    assert OralRoute in TimedRoutes([OralRoute]);
  }

  /** Two different positions of `out` hold records with the same name. */
  predicate NamesRepeat(out: seq<Canonical>) {
    exists i, j :: 0 <= i < |out| && 0 <= j < |out| && i != j && out[i].name == out[j].name
  }

  /** Two hits that are kept and merge into different records with the same
      name put two records with that name into the output. */
  lemma RepeatedName(hits: seq<Hit>, merge: Merge, j0: nat, j1: nat)
    requires Assemble(hits, merge).Ok? && KeptAt(hits, merge, j0) && KeptAt(hits, merge, j1)
    requires merge(hits[j0].pw, hits[j0].ts).value != merge(hits[j1].pw, hits[j1].ts).value
    requires merge(hits[j0].pw, hits[j0].ts).value.name == merge(hits[j1].pw, hits[j1].ts).value.name
    ensures NamesRepeat(Assemble(hits, merge).value)
  {
    var out := Assemble(hits, merge).value;
    var i :| 0 <= i < |out| && out[i] == merge(hits[j0].pw, hits[j0].ts).value;
    var j :| 0 <= j < |out| && out[j] == merge(hits[j1].pw, hits[j1].ts).value;
  }

  /** Two hits whose merges do not fail assemble without failing. */
  lemma AssembleOkTwo(hits: seq<Hit>, merge: Merge)
    requires |hits| == 2 && !FailsAt(hits, merge, 0) && !FailsAt(hits, merge, 1)
    ensures Assemble(hits, merge).Ok?
  {
    forall j: nat ensures !FailsAt(hits, merge, j) {
    }
  }

  /** Both hits of the example merge into different records with a route
      and the same name. */
  lemma ExampleKept()
    ensures Assemble(ExampleHitList, MergeRecords).Ok?
    ensures KeptAt(ExampleHitList, MergeRecords, 0) && KeptAt(ExampleHitList, MergeRecords, 1)
    ensures MergeRecords(ExampleHitList[0].pw, ExampleHitList[0].ts).value
         != MergeRecords(ExampleHitList[1].pw, ExampleHitList[1].ts).value
    ensures MergeRecords(ExampleHitList[0].pw, ExampleHitList[0].ts).value.name
         == MergeRecords(ExampleHitList[1].pw, ExampleHitList[1].ts).value.name
  {
    var h0, h1 := ExampleHitList[0], ExampleHitList[1];
    assert h0.pw == Some(AlphaPage) && h0.ts == Some(AlphaSheet);
    assert h1.pw == Some(ZPage) && h1.ts == None;
    ExampleMergeAlpha();
    ExampleMergeZ();
    assert !FailsAt(ExampleHitList, MergeRecords, 0) && !FailsAt(ExampleHitList, MergeRecords, 1);
    AssembleOkTwo(ExampleHitList, MergeRecords);
  }

  lemma ExampleRepeats()
    ensures Assemble(ExampleHitList, MergeRecords).Ok?
    ensures NamesRepeat(Assemble(ExampleHitList, MergeRecords).value)
  {
    ExampleKept();
    RepeatedName(ExampleHitList, MergeRecords, 0, 1);
  }

  /** Two different records of the output carry the same display name. */
  lemma DisplayNamesCanRepeat()
    ensures Reconciled([AlphaPage, ZPage], [AlphaSheet]).Ok?
    ensures NamesRepeat(Reconciled([AlphaPage, ZPage], [AlphaSheet]).value)
  {
    ExampleReconciled();
    ExampleRepeats();
  }
}
