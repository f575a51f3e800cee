/** The name resolver: `substance_name_match`, `find_substance_in_data`, the
    `list.remove` that follows a hit, and the route-name synonyms of
    `roa_matches_name`. */
module Resolver {
  import opened Wrappers
  import opened Text
  import opened Records

  /** The keys `substance_name_match` looks at; a missing `name` or
      `pretty_name` is None and a missing `aliases` is the empty list. */
  datatype NameKeys = NameKeys(name: Option<string>, prettyName: Option<string>, aliases: seq<string>)

  /** A PsychonautWiki record has a `name` and `aliases` but no `pretty_name`. */
  function PwKeys(p: PwRec): NameKeys {
    NameKeys(Some(p.name), None, p.aliases)
  }

  function TsKeys(t: TsRec): NameKeys {
    NameKeys(t.name, t.prettyName, t.aliases)
  }

  predicate KeyMatches(lowerName: string, key: Option<string>) {
    key.Some? && lowerName == Lower(key.value)
  }

  /** `any(lower_name == alias.lower() for alias in aliases)` */
  predicate AnyAliasMatches(lowerName: string, aliases: seq<string>)
    ensures AnyAliasMatches(lowerName, aliases) <==>
      exists i :: 0 <= i < |aliases| && Lower(aliases[i]) == lowerName
  {
    if aliases == [] then false
    else if lowerName == Lower(aliases[0]) then true
    else
      assert forall i :: 1 <= i < |aliases| ==> aliases[i] == aliases[1..][i - 1];
      AnyAliasMatches(lowerName, aliases[1..])
  }

  /** `substance_name_match(name, substance)`: case-insensitive equality with
      the name, the pretty name or one of the aliases; a key that is missing
      takes no part. */
  predicate SubstanceNameMatch(name: string, k: NameKeys)
    ensures SubstanceNameMatch(name, k) <==>
      (k.name.Some? && Lower(k.name.value) == Lower(name))
      || (k.prettyName.Some? && Lower(k.prettyName.value) == Lower(name))
      || (exists i :: 0 <= i < |k.aliases| && Lower(k.aliases[i]) == Lower(name))
  {
    var lowerName := Lower(name);
    KeyMatches(lowerName, k.name) || KeyMatches(lowerName, k.prettyName)
    || AnyAliasMatches(lowerName, k.aliases)
  }

  /** A record with none of the three keys matches no name at all. */
  lemma NoKeysMatchNothing(name: string)
    ensures !SubstanceNameMatch(name, NameKeys(None, None, []))
  {
  }

  /** Index `i` holds the first record of `data` that matches `name`. */
  predicate FirstMatchAt<T>(data: seq<T>, name: string, keys: T -> NameKeys, i: nat) {
    i < |data| && SubstanceNameMatch(name, keys(data[i]))
    && forall j :: 0 <= j < i ==> !SubstanceNameMatch(name, keys(data[j]))
  }

  /** The position `next(...)` stops at in `find_substance_in_data`. */
  function FirstMatch<T>(data: seq<T>, name: string, keys: T -> NameKeys): (r: Option<nat>)
    ensures r.None? <==> forall j :: 0 <= j < |data| ==> !SubstanceNameMatch(name, keys(data[j]))
    ensures r.Some? ==> FirstMatchAt(data, name, keys, r.value)
  {
    if data == [] then None
    else if SubstanceNameMatch(name, keys(data[0])) then Some(0)
    else
      var r := FirstMatch(data[1..], name, keys);
      assert forall j :: 1 <= j < |data| ==> data[j] == data[1..][j - 1];
      if r.None? then None else Some(r.value + 1)
  }

  /** `find_substance_in_data(data, name)`: the first matching record, or None. */
  function FindSubstance<T>(data: seq<T>, name: string, keys: T -> NameKeys): (r: Option<T>)
    ensures r.None? <==> forall j :: 0 <= j < |data| ==> !SubstanceNameMatch(name, keys(data[j]))
    ensures r.Some? ==> exists i: nat :: FirstMatchAt(data, name, keys, i) && data[i] == r.value
  {
    match FirstMatch(data, name, keys)
    case None => None
    case Some(i) => Some(data[i])
  }

  /** Where `list.index(x)` would stop: the first element equal to `x`. */
  function IndexOfValue<T(==)>(s: seq<T>, x: T): (i: nat)
    requires x in s
    ensures i < |s| && s[i] == x
    ensures forall j :: 0 <= j < i ==> s[j] != x
  {
    if s[0] == x then 0 else 1 + IndexOfValue(s[1..], x)
  }

  /** `s.remove(x)`: drops the first element equal to `x` (the source raises
      ValueError when there is none, which its callers never allow). */
  function RemoveFirst<T(==)>(s: seq<T>, x: T): (r: seq<T>)
    requires x in s
    ensures |r| == |s| - 1
    ensures multiset(r) + multiset{x} == multiset(s)
    ensures exists i :: 0 <= i < |s| && s[i] == x && (forall j :: 0 <= j < i ==> s[j] != x)
                        && r == s[..i] + s[i + 1..]
  {
    var i := IndexOfValue(s, x);
    assert s == s[..i] + [x] + s[i + 1..];
    s[..i] + s[i + 1..]
  }

  /** The record `find_substance_in_data` returns is the one `remove` takes out:
      an earlier equal record would have matched first. */
  lemma RemoveFirstMatch<T>(data: seq<T>, name: string, keys: T -> NameKeys, i: nat)
    requires FirstMatchAt(data, name, keys, i)
    ensures RemoveFirst(data, data[i]) == data[..i] + data[i + 1..]
  {
    assert forall j :: 0 <= j < i ==> data[j] != data[i];
    assert IndexOfValue(data, data[i]) == i;
  }

  /** Outcome of looking a name up in one source list and removing the hit. */
  datatype Taken<T> = Taken(found: Option<T>, rest: seq<T>)

  /** Lines 345-350 (and 353-358): find the first record matching `name` and
      remove it from the list, or leave the list as it is. */
  function Take<T(==)>(data: seq<T>, name: string, keys: T -> NameKeys): (r: Taken<T>)
    ensures r.found.None? ==>
              r.rest == data
              && forall j :: 0 <= j < |data| ==> !SubstanceNameMatch(name, keys(data[j]))
    ensures r.found.Some? ==>
              exists i: nat :: (FirstMatchAt(data, name, keys, i)
                                && r.found.value == data[i] && r.rest == data[..i] + data[i + 1..])
    ensures r.found.Some? ==>
              |r.rest| == |data| - 1
              && multiset(r.rest) + multiset{r.found.value} == multiset(data)
  {
    match FindSubstance(data, name, keys)
    case None => Taken(None, data)
    case Some(x) =>
      var i: nat :| FirstMatchAt(data, name, keys, i) && data[i] == x;
      RemoveFirstMatch(data, name, keys, i);
      Taken(Some(x), RemoveFirst(data, x))
  }

  /** `roa_name_aliases` */
  const RoaNameAliases: map<string, seq<string>> := map[
    "iv" := ["intravenous"],
    "intravenous" := ["iv"],
    "im" := ["intramuscular"],
    "intramuscular" := ["im"],
    "insufflated" := ["snorted"],
    "snorted" := ["insufflated"],
    "vaporized" := ["vapourized"],
    "vapourized" := ["vaporized"]
  ]

  /** `roa_name_aliases.get(n, [])` */
  function RouteSynonyms(n: string): seq<string> {
    if n in RoaNameAliases then RoaNameAliases[n] else []
  }

  /** `roa_matches_name(roa, name)` */
  predicate RoaMatchesName(roa: Roa, name: string) {
    var synonyms := RouteSynonyms(Lower(name));
    Lower(roa.name) == Lower(name) || Lower(roa.name) in synonyms
  }

  /** The synonym pairs, written as unordered pairs. */
  const SynonymPairs: set<set<string>> := {
    {"iv", "intravenous"}, {"im", "intramuscular"},
    {"insufflated", "snorted"}, {"vaporized", "vapourized"}
  }

  lemma PairsEqual(a: string, b: string, x: string, y: string)
    requires {a, b} == {x, y} && x != y
    ensures (a == x && b == y) || (a == y && b == x)
  {
    assert a in {x, y} && b in {x, y};
    assert x in {a, b} && y in {a, b};
  }

  /** The synonym table holds exactly the four unordered pairs, in both directions. */
  lemma RouteSynonymsArePairs(a: string, b: string)
    ensures b in RouteSynonyms(a) <==> a != b && {a, b} in SynonymPairs
  {
    if a != b && {a, b} in SynonymPairs {
      if {a, b} == {"iv", "intravenous"} {
        PairsEqual(a, b, "iv", "intravenous");
      } else if {a, b} == {"im", "intramuscular"} {
        PairsEqual(a, b, "im", "intramuscular");
      } else if {a, b} == {"insufflated", "snorted"} {
        PairsEqual(a, b, "insufflated", "snorted");
      } else {
        PairsEqual(a, b, "vaporized", "vapourized");
      }
    }
    if b in RouteSynonyms(a) {
      assert a in RoaNameAliases;
      if a == "iv" || a == "intravenous" {
        assert {a, b} == {"iv", "intravenous"};
      } else if a == "im" || a == "intramuscular" {
        assert {a, b} == {"im", "intramuscular"};
      } else if a == "insufflated" || a == "snorted" {
        assert {a, b} == {"insufflated", "snorted"};
      } else {
        assert {a, b} == {"vaporized", "vapourized"};
      }
    }
  }

  /** A route matches a name when the two are equal ignoring case or form one
      of the synonym pairs, so the relation is symmetric. */
  lemma RoaMatchesNameIff(roa: Roa, name: string)
    ensures RoaMatchesName(roa, name) <==>
      Lower(roa.name) == Lower(name) || {Lower(roa.name), Lower(name)} in SynonymPairs
  {
    RouteSynonymsArePairs(Lower(name), Lower(roa.name));
    assert {Lower(name), Lower(roa.name)} == {Lower(roa.name), Lower(name)};
  }

  lemma RoaMatchesNameSymmetric(r1: Roa, r2: Roa)
    ensures RoaMatchesName(r1, r2.name) <==> RoaMatchesName(r2, r1.name)
  {
    RoaMatchesNameIff(r1, r2.name);
    RoaMatchesNameIff(r2, r1.name);
    assert {Lower(r1.name), Lower(r2.name)} == {Lower(r2.name), Lower(r1.name)};
  }

  /** "IV" and "Intravenous" name the same route, whichever side each is on;
      an unrelated route does not match. */
  lemma IntravenousExample()
    ensures RoaMatchesName(Roa("Intravenous", Null, Null), "IV")
    ensures RoaMatchesName(Roa("IV", Null, Null), "intravenous")
    ensures !RoaMatchesName(Roa("Oral", Null, Null), "IV")
  {
    assert Lower("IV") == "iv";
    assert Lower("Intravenous") == "intravenous";
    assert Lower("intravenous") == "intravenous";
    assert Lower("Oral") == "oral";
  }
}
