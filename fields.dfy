/** The per-substance part of the merge pass: every field of one output record,
    computed from the PsychonautWiki record and the TripSit factsheet found for
    one name.  Either of the two may be missing (the source uses `{}` for a
    missing one, which here is `None`). */
module Fields {
  import opened Wrappers
  import opened Text
  import opened Order
  import opened Seqs
  import opened Records

  function CombosOf(ts: Option<TsRec>): Option<seq<(string, Json)>> {
    if ts.Some? then ts.value.combos else None
  }

  function SummaryOf(ts: Option<TsRec>): Option<string> {
    if ts.Some? then ts.value.summary else None
  }

  function TestKitsOf(ts: Option<TsRec>): Option<string> {
    if ts.Some? then ts.value.testKits else None
  }

  function ExperiencesOf(ts: Option<TsRec>): Option<string> {
    if ts.Some? then ts.value.experiencesUrl else None
  }

  /** `pw_substance.get("roas", [])` */
  function RoutesOf(pw: Option<PwRec>): seq<Roa> {
    if pw.Some? then pw.value.roas else []
  }

  /** `pw_substance.get("data", {})`, each missing key read as null. */
  function PwDataOf(pw: Option<PwRec>): PwData {
    if pw.Some? then pw.value.data else PwData(Null, Null, Null, Null, Null)
  }

  const TripSitPrefix := "https://drugs.tripsit.me/"

  /** The record's url: the PsychonautWiki url when it is not empty, otherwise
      the TripSit page named after the factsheet's `name`.  With neither, the
      lookup of `name` raises KeyError. */
  function SourceUrl(pw: Option<PwRec>, ts: Option<TsRec>): (r: Result<string, Failure>)
    ensures r.Err? <==> (pw.None? || pw.value.url == "") && (ts.None? || ts.value.name.None?)
    ensures r.Err? ==> r.error == MissingTripSitName
    ensures r.Ok? ==> r.value != ""
    ensures r.Ok? && pw.Some? && pw.value.url != "" ==> r.value == pw.value.url
    ensures r.Ok? && (pw.None? || pw.value.url == "") ==>
              StartsWith(r.value, TripSitPrefix) && r.value[|TripSitPrefix|..] == ts.value.name.value
  {
    if pw.Some? && pw.value.url != "" then Ok(pw.value.url)
    else if ts.Some? && ts.value.name.Some? then Ok(TripSitPrefix + ts.value.name.value)
    else Err(MissingTripSitName)
  }

  /** The two display-name candidates that exist: the PsychonautWiki `name`
      and the TripSit `pretty_name`, in that order. */
  function NameCandidates(pw: Option<PwRec>, ts: Option<TsRec>): seq<string> {
    (if pw.Some? then [pw.value.name] else [])
    + (if ts.Some? && ts.value.prettyName.Some? then [ts.value.prettyName.value] else [])
  }

  /** The display name: the shortest non-empty candidate, the PsychonautWiki
      one on a tie (`min` keeps the first of equal keys); `min` of nothing
      raises ValueError. */
  function DisplayName(pw: Option<PwRec>, ts: Option<TsRec>): (r: Result<string, Failure>)
    ensures r.Err? <==> forall n :: n in NameCandidates(pw, ts) ==> n == ""
    ensures r.Err? ==> r.error == NoDisplayName
    ensures r.Ok? ==> r.value != "" && r.value in NameCandidates(pw, ts)
    ensures r.Ok? ==> forall n :: n in NameCandidates(pw, ts) && n != "" ==> |r.value| <= |n|
    ensures r.Ok? && pw.Some? && pw.value.name != "" ==>
              r.value == pw.value.name || |r.value| < |pw.value.name|
  {
    var fromPw := if pw.Some? && pw.value.name != "" then Some(pw.value.name) else None;
    var fromTs :=
      if ts.Some? && ts.value.prettyName.Some? && ts.value.prettyName.value != ""
      then Some(ts.value.prettyName.value) else None;
    assert fromPw.Some? ==> fromPw.value in NameCandidates(pw, ts);
    assert fromTs.Some? ==> fromTs.value in NameCandidates(pw, ts);
    match (fromPw, fromTs)
    case (None, None) => Err(NoDisplayName)
    case (Some(a), None) => Ok(a)
    case (None, Some(b)) => Ok(b)
    case (Some(a), Some(b)) => Ok(if |b| < |a| then b else a)
  }

  /** Every name the alias list is drawn from: the display-name candidates,
      then the PsychonautWiki aliases, then the TripSit aliases. */
  function AliasCandidates(pw: Option<PwRec>, ts: Option<TsRec>): seq<string> {
    NameCandidates(pw, ts)
    + (if pw.Some? then pw.value.aliases else [])
    + (if ts.Some? then ts.value.aliases else [])
  }

  /** The alias list: every non-empty candidate lower-cased, without
      duplicates, without the lower-cased display name, sorted. */
  function Aliases(pw: Option<PwRec>, ts: Option<TsRec>, display: string): (r: seq<string>)
    ensures StrictlySorted(r)
    ensures forall a :: a in r <==>
      a != Lower(display) && exists c :: c in AliasCandidates(pw, ts) && c != "" && Lower(c) == a
    ensures forall a :: a in r ==> a != "" && IsLowered(a)
  {
    var named := Filter(n => n != "", AliasCandidates(pw, ts));
    var lowered := Map(Lower, named);
    MapMembers(Lower, named);
    forall c | c in named ensures Lower(c) != "" && IsLowered(Lower(c)) {
      LowerIsLowered(c);
    }
    SortedDistinct(Filter(a => a != Lower(display), lowered))
  }

  /** Neither empty nor starting or ending with whitespace: what `strip()`
      leaves of a string that is not all whitespace. */
  predicate Stripped(s: string) {
    s != "" && !IsSpace(s[0]) && !IsSpace(s[|s| - 1])
  }

  /** A TripSit property read with default `""`, stripped, and None when
      nothing is left (the summary and the test kits). */
  function TrimmedOrNone(s: Option<string>): (r: Option<string>)
    ensures r.Some? ==> s.Some? && Stripped(r.value)
  {
    var t := Strip(s.GetOr(""));
    if t == "" then None else Some(t)
  }

  /** The value is None exactly when the property is missing or all
      whitespace, and otherwise it is the property with the whitespace around
      it cut off. */
  lemma TrimmedOrNoneIsStrip(s: Option<string>)
    ensures TrimmedOrNone(s).None? <==> s.None? || forall k :: 0 <= k < |s.value| ==> IsSpace(s.value[k])
    ensures TrimmedOrNone(s).Some? ==> exists i :: TrimmedSliceAt(s.value, TrimmedOrNone(s).value, i)
  {
  }

  /** `ts_combo_ignore`: a combo key that only duplicates another one. */
  const ComboIgnore: seq<string> := ["benzos"]

  /** `ts_combo_transformations`: the display name of each TripSit combo key,
      None for a key the table lacks.  The ignored key is not in the table. */
  function ComboDisplayName(key: string): (r: Option<string>)
    ensures key in ComboIgnore ==> r.None?
  {
    match key
    case "lsd" => Some("LSD")
    case "mushrooms" => Some("Mushrooms")
    case "dmt" => Some("DMT")
    case "mescaline" => Some("Mescaline")
    case "dox" => Some("DOx")
    case "nbomes" => Some("NBOMes")
    case "2c-x" => Some("2C-x")
    case "2c-t-x" => Some("2C-T-x")
    case "amt" => Some("aMT")
    case "5-meo-xxt" => Some("5-MeO-xxT")
    case "cannabis" => Some("Cannabis")
    case "ketamine" => Some("Ketamine")
    case "mxe" => Some("MXE")
    case "dxm" => Some("DXM")
    case "pcp" => Some("PCP")
    case "nitrous" => Some("Nitrous")
    case "amphetamines" => Some("Amphetamines")
    case "mdma" => Some("MDMA")
    case "cocaine" => Some("Cocaine")
    case "caffeine" => Some("Caffeine")
    case "alcohol" => Some("Alcohol")
    case "ghb/gbl" => Some("GHB/GBL")
    case "opioids" => Some("Opioids")
    case "tramadol" => Some("Tramadol")
    case "benzodiazepines" => Some("Benzodiazepines")
    case "maois" => Some("MAOIs")
    case "ssris" => Some("SSRIs")
    case _ => None
  }

  /** A combo key that is neither ignored nor in the table: looking it up raises KeyError. */
  predicate UnknownKey(key: string) {
    key !in ComboIgnore && ComboDisplayName(key).None?
  }

  /** Position `j` holds the first unknown key of `combos`. */
  predicate FirstUnknownAt(combos: seq<(string, Json)>, j: nat) {
    j < |combos| && UnknownKey(combos[j].0)
    && forall k :: 0 <= k < j ==> !UnknownKey(combos[k].0)
  }

  /** A name the display-name table can produce. */
  ghost predicate KnownDisplayName(name: string) {
    exists key :: ComboDisplayName(key) == Some(name)
  }

  function InteractionName(i: Interaction): string {
    i.name
  }

  /** `xs` in front of a successful list; a failure stays the failure. */
  function Prepend<T>(xs: seq<T>, r: Result<seq<T>, Failure>): Result<seq<T>, Failure> {
    if r.Ok? then Ok(xs + r.value) else r
  }

  /** The interaction list before sorting: the combos in dict order, each
      named from the table, the ignored key skipped, failing at the first
      unknown key. */
  function InteractionsOf(combos: seq<(string, Json)>): (r: Result<seq<Interaction>, Failure>)
    ensures r.Err? <==> exists j :: 0 <= j < |combos| && UnknownKey(combos[j].0)
    ensures r.Err? ==> exists j: nat :: FirstUnknownAt(combos, j) && r.error == UnknownComboKey(combos[j].0)
    ensures r.Ok? ==> forall i :: i in r.value ==> KnownDisplayName(i.name)
  {
    if combos == [] then Ok([])
    else
      var key := combos[0].0;
      var rest := InteractionsOf(combos[1..]);
      assert forall j :: 1 <= j < |combos| ==> combos[j] == combos[1..][j - 1];
      if key in ComboIgnore then rest
      else if ComboDisplayName(key).None? then Err(UnknownComboKey(key))
      else Prepend([Interaction(ComboDisplayName(key).value, combos[0].1)], rest)
  }

  /** The display name of a key, the key itself when the table lacks it. */
  function DisplayOf(key: string): string {
    ComboDisplayName(key).GetOr(key)
  }

  predicate NotIgnored(entry: (string, Json)) {
    entry.0 !in ComboIgnore
  }

  function Named(entry: (string, Json)): Interaction {
    Interaction(DisplayOf(entry.0), entry.1)
  }

  /** Without unknown keys the loop is a filter followed by a map. */
  lemma {:induction false} InteractionsOfIsFilterMap(combos: seq<(string, Json)>)
    requires forall j :: 0 <= j < |combos| ==> !UnknownKey(combos[j].0)
    ensures InteractionsOf(combos) == Ok(Map(Named, Filter(NotIgnored, combos)))
  {
    if combos != [] {
      assert forall j :: 1 <= j < |combos| ==> combos[j] == combos[1..][j - 1];
      InteractionsOfIsFilterMap(combos[1..]);
      var tail := Filter(NotIgnored, combos[1..]);
      if NotIgnored(combos[0]) {
        assert Filter(NotIgnored, combos) == [combos[0]] + tail;
        assert Map(Named, [combos[0]] + tail) == [Named(combos[0])] + Map(Named, tail);
        assert InteractionsOf(combos)
            == Prepend([Interaction(ComboDisplayName(combos[0].0).value, combos[0].1)], InteractionsOf(combos[1..]));
      } else {
        assert Filter(NotIgnored, combos) == tail;
      }
    }
  }

  /** InteractionsOf on a suffix, one element unfolded. */
  lemma InteractionsOfAt(items: seq<(string, Json)>, k: nat)
    requires k < |items|
    ensures InteractionsOf(items[k..]) ==
              var key := items[k].0;
              if key in ComboIgnore then InteractionsOf(items[k + 1..])
              else if ComboDisplayName(key).None? then Err(UnknownComboKey(key))
              else Prepend([Interaction(ComboDisplayName(key).value, items[k].1)], InteractionsOf(items[k + 1..]))
  {
    assert items[k..][1..] == items[k + 1..];
  }

  lemma PrependPrepend<T>(xs: seq<T>, ys: seq<T>, r: Result<seq<T>, Failure>)
    ensures Prepend(xs, Prepend(ys, r)) == Prepend(xs + ys, r)
  {
    if r.Ok? {
      assert xs + (ys + r.value) == (xs + ys) + r.value;
    }
  }

  /** The interactions of a factsheet: none without combos (a missing or
      empty dict is falsy), otherwise the named combos sorted by name. */
  function Interactions(combos: Option<seq<(string, Json)>>): (r: Result<Option<seq<Interaction>>, Failure>)
    ensures combos.None? || combos.value == [] ==> r == Ok(None)
    ensures r.Ok? ==> (r.value.None? <==> combos.None? || combos.value == [])
    ensures r.Err? <==> combos.Some? && InteractionsOf(combos.value).Err?
    ensures r.Ok? && r.value.Some? ==>
              combos.Some? && InteractionsOf(combos.value).Ok?
              && multiset(r.value.value) == multiset(InteractionsOf(combos.value).value)
              && SortedBy(r.value.value, InteractionName)
    ensures r.Ok? && r.value.Some? ==> forall i :: i in r.value.value ==> KnownDisplayName(i.name)
  {
    if combos.None? || combos.value == [] then Ok(None)
    else
      var unsorted :- InteractionsOf(combos.value);
      var sorted := SortBy(unsorted, InteractionName);
      assert forall i :: i in sorted ==> i in multiset(unsorted);
      Ok(Some(sorted))
  }

  /** The loop over `combos.items()`: builds the interaction list and sorts it. */
  method BuildInteractions(combos: Option<seq<(string, Json)>>)
    returns (r: Result<Option<seq<Interaction>>, Failure>)
    ensures r == Interactions(combos)
  {
    if combos.None? || combos.value == [] {
      return Ok(None);
    }
    var items := combos.value;
    var interactions: seq<Interaction> := [];
    var k := 0;
    assert items[k..] == items;
    assert InteractionsOf(items).Ok? ==> [] + InteractionsOf(items).value == InteractionsOf(items).value;
    while k < |items|
      invariant 0 <= k <= |items|
      invariant InteractionsOf(items) == Prepend(interactions, InteractionsOf(items[k..]))
    {
      var key := items[k].0;
      InteractionsOfAt(items, k);
      if key in ComboIgnore {
        k := k + 1;
        continue;
      }
      if ComboDisplayName(key).None? {
        assert InteractionsOf(items) == Err(UnknownComboKey(key));
        return Err(UnknownComboKey(key));
      }
      PrependPrepend(interactions, [Interaction(ComboDisplayName(key).value, items[k].1)], InteractionsOf(items[k + 1..]));
      interactions := interactions + [Interaction(ComboDisplayName(key).value, items[k].1)];
      k := k + 1;
    }
    assert items[k..] == [];
    assert interactions + [] == interactions;
    assert InteractionsOf(items) == Ok(interactions);
    return Ok(Some(SortBy(interactions, InteractionName)));
  }

  /** A route with a known duration (`roa["duration"] is not None`). */
  predicate Timed(roa: Roa) {
    roa.duration != Null
  }

  /** The routes that are kept: those with a duration, in their order. */
  function TimedRoutes(roas: seq<Roa>): (r: seq<Roa>)
    ensures |r| <= |roas|
    ensures forall x :: x in r <==> x in roas && Timed(x)
  {
    Filter(Timed, roas)
  }

  /** The loop that drops the routes without a duration. */
  method FilterTimedRoutes(roas: seq<Roa>) returns (kept: seq<Roa>)
    ensures kept == TimedRoutes(roas)
  {
    kept := [];
    for i := 0 to |roas|
      invariant kept == Filter(Timed, roas[..i])
    {
      assert roas[..i + 1] == roas[..i] + [roas[i]];
      FilterAppend(Timed, roas[..i], [roas[i]]);
      if roas[i].duration == Null {
        continue;
      }
      kept := kept + [roas[i]];
    }
    assert roas[..|roas|] == roas;
  }

  /** What every merged record satisfies, whether or not it is kept. */
  ghost predicate Settled(c: Canonical) {
    && c.url != ""
    && c.name != ""
    && StrictlySorted(c.aliases)
    && Lower(c.name) !in c.aliases
    && (forall a :: a in c.aliases ==> a != "" && IsLowered(a))
    && c.aliasesStr == Join(c.aliases, ",")
    && (forall x :: x in c.roas ==> Timed(x))
    && (c.summary.Some? ==> Stripped(c.summary.value))
    && (c.reagents.Some? ==> Stripped(c.reagents.value))
    && (c.interactions.Some? ==>
          SortedBy(c.interactions.value, InteractionName)
          && forall i :: i in c.interactions.value ==> KnownDisplayName(i.name))
  }

  /** What every record of the output satisfies: settled, with at least one route. */
  ghost predicate Emittable(c: Canonical) {
    Settled(c) && c.roas != []
  }

  /** One iteration of the merge loop up to the append: the merged record, or
      the exception that ends the run (checked in source order: url, display
      name, combos). */
  function MergeRecords(pw: Option<PwRec>, ts: Option<TsRec>): (r: Result<Canonical, Failure>)
    ensures r.Err? <==>
              SourceUrl(pw, ts).Err? || DisplayName(pw, ts).Err? || Interactions(CombosOf(ts)).Err?
    ensures r.Err? && SourceUrl(pw, ts).Err? ==> r.error == MissingTripSitName
    ensures r.Err? && SourceUrl(pw, ts).Ok? && DisplayName(pw, ts).Err? ==> r.error == NoDisplayName
    ensures r.Err? && SourceUrl(pw, ts).Ok? && DisplayName(pw, ts).Ok? ==>
              r.error == Interactions(CombosOf(ts)).error
    ensures r.Ok? ==> Settled(r.value)
    ensures r.Ok? ==>
              r.value.url == SourceUrl(pw, ts).value
              && r.value.name == DisplayName(pw, ts).value
              && r.value.aliases == Aliases(pw, ts, r.value.name)
    ensures r.Ok? ==>
              r.value.experiencesUrl == ExperiencesOf(ts)
              && r.value.summary == TrimmedOrNone(SummaryOf(ts))
              && r.value.reagents == TrimmedOrNone(TestKitsOf(ts))
              && r.value.interactions == Interactions(CombosOf(ts)).value
    ensures r.Ok? ==>
              r.value.classes == PwDataOf(pw).classes
              && r.value.toxicity == PwDataOf(pw).toxicity
              && r.value.addictionPotential == PwDataOf(pw).addictionPotential
              && r.value.tolerance == PwDataOf(pw).tolerance
              && r.value.crossTolerances == PwDataOf(pw).crossTolerances
    ensures r.Ok? && pw.None? ==>
              r.value.classes == Null && r.value.toxicity == Null && r.value.addictionPotential == Null
              && r.value.tolerance == Null && r.value.crossTolerances == Null
    ensures r.Ok? ==> r.value.roas == TimedRoutes(RoutesOf(pw))
    ensures r.Ok? && pw.None? ==> r.value.roas == []
    ensures r.Ok? && ts.None? ==>
              r.value.experiencesUrl.None? && r.value.summary.None?
              && r.value.reagents.None? && r.value.interactions.None?
  {
    var url :- SourceUrl(pw, ts);
    var name :- DisplayName(pw, ts);
    var aliases := Aliases(pw, ts, name);
    var interactions :- Interactions(CombosOf(ts));
    var data := PwDataOf(pw);
    Ok(Canonical(
      url, ExperiencesOf(ts), name, aliases, Join(aliases, ","),
      TrimmedOrNone(SummaryOf(ts)), TrimmedOrNone(TestKitsOf(ts)),
      data.classes, data.toxicity, data.addictionPotential, data.tolerance, data.crossTolerances,
      TimedRoutes(RoutesOf(pw)), interactions))
  }

  /** The body of the merge loop for one pair of records, with its two inner loops. */
  method MergeFound(pw: Option<PwRec>, ts: Option<TsRec>) returns (r: Result<Canonical, Failure>)
    ensures r == MergeRecords(pw, ts)
  {
    var url :- SourceUrl(pw, ts);
    var experiencesUrl := ExperiencesOf(ts);
    var name :- DisplayName(pw, ts);
    var aliases := Aliases(pw, ts, name);
    var summary := TrimmedOrNone(SummaryOf(ts));
    var testKits := TrimmedOrNone(TestKitsOf(ts));
    var data := PwDataOf(pw);
    var interactions :- BuildInteractions(CombosOf(ts));
    var roas := FilterTimedRoutes(RoutesOf(pw));
    return Ok(Canonical(
      url, experiencesUrl, name, aliases, Join(aliases, ","), summary, testKits,
      data.classes, data.toxicity, data.addictionPotential, data.tolerance, data.crossTolerances,
      roas, interactions));
  }

  /** `aliasesStr` splits back into `aliases` when no alias holds a comma. */
  lemma AliasesStrSplits(c: Canonical)
    requires Settled(c) && c.aliases != []
    requires forall a :: a in c.aliases ==> ',' !in a
    ensures Split(c.aliasesStr, ",") == c.aliases
  {
    SplitJoin(c.aliases, ',');
  }
}
