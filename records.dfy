/** The records the merge pass reads and writes.  The source handles them as
    loosely typed dicts; here every key it reads is a field, `Option` where the
    key may be missing, and the payloads it only copies are kept as JSON. */
module Records {
  import opened Wrappers

  /** A JSON value copied verbatim from a source into the output (dose and
      duration tables, class and tolerance descriptors, combo blobs).  `Null` is
      JSON `null`, which the source reads as Python `None`. */
  datatype Json =
    | Null
    | Bool(b: bool)
    | Number(literal: string)
    | Str(s: string)
    | Array(items: seq<Json>)
    | Object(members: seq<(string, Json)>)

  /** One route of administration of a PsychonautWiki substance: `name`,
      `dose` and `duration` as the GraphQL query asks for them. */
  datatype Roa = Roa(name: string, dose: Json, duration: Json)

  /** The part of the GraphQL answer the merge copies (the `data` dict). */
  datatype PwData = PwData(
    classes: Json,
    toxicity: Json,
    addictionPotential: Json,
    tolerance: Json,
    crossTolerances: Json)

  /** A PsychonautWiki record as the fetch phase appends it: the page URL, the
      page title, the cleaned common names, the GraphQL data and its routes. */
  datatype PwRec = PwRec(url: string, name: string, aliases: seq<string>, data: PwData, roas: seq<Roa>)

  /** A TripSit factsheet.  `name`, `pretty_name` and `combos` may be missing;
      a missing `aliases` key reads as the empty list.  `summary` and `testKits`
      stand for `properties["summary"]` and `properties["test-kits"]`, and
      `experiencesUrl` for `links["experiences"]`.  `combos` keeps the dict's
      items in iteration order. */
  datatype TsRec = TsRec(
    name: Option<string>,
    prettyName: Option<string>,
    aliases: seq<string>,
    summary: Option<string>,
    testKits: Option<string>,
    combos: Option<seq<(string, Json)>>,
    experiencesUrl: Option<string>)

  /** One entry of the output's `interactions`: a combo blob with the display
      name of its key written under `"name"`. */
  datatype Interaction = Interaction(name: string, combo: Json)

  /** One element of the output array. */
  datatype Canonical = Canonical(
    url: string,
    experiencesUrl: Option<string>,
    name: string,
    aliases: seq<string>,
    aliasesStr: string,
    summary: Option<string>,
    reagents: Option<string>,
    classes: Json,
    toxicity: Json,
    addictionPotential: Json,
    tolerance: Json,
    crossTolerances: Json,
    roas: seq<Roa>,
    interactions: Option<seq<Interaction>>)

  /** The exceptions the merge pass can raise; each one ends the run without output. */
  datatype Failure =
    | MissingTripSitName        // KeyError: ts_substance['name'] when building the fallback url
    | NoDisplayName             // ValueError: min() of an empty list of display names
    | UnknownComboKey(key: string)  // KeyError: a combo key missing from the display-name table
}
