/** The objects an ODXLINK or SNREF can name, and the two lookups the core
    delegates to: the ODXLINK database and a short-name dictionary. Both
    are given as maps; their own search rules are not part of this model. */
module OdxLinks {
  import opened Odx

  /** The identifier an ODXLINK reference names (its document fragments
      are folded into the string). */
  type OdxLinkId = string

  /** The objects the core resolves references to, with only what the core
      reads from them. */
  datatype Entity =
    | BasicStructure(shortName: string)
    | DataObjectProperty(shortName: string)
    | DtcDop(shortName: string)
    /** `keyDopType` is the physical base data type of the table's KEY-DOP,
        None when the table has no key DOP. */
    | Table(shortName: string, keyDopType: Option<DataType>)
    | FunctionalClass(shortName: string)
    | TableRowEntity(odxId: OdxLinkId)
    | OtherEntity(shortName: string)

  /** A DOP a table row may reference: a simple DOP or a DTC-DOP. */
  predicate IsSimpleDop(e: Entity)
  {
    e.DataObjectProperty? || e.DtcDop?
  }

  type LinkDatabase = map<OdxLinkId, Entity>

  /** `OdxLinkDatabase.resolve` */
  function Resolve(db: LinkDatabase, id: OdxLinkId): (r: Outcome<Entity>)
    ensures r.Ok? <==> id in db
    ensures r.Ok? ==> r.value == db[id] && r.warnings == []
    ensures r.Err? ==> r.failure == Unresolved(id)
  {
    if id in db then Ok(db[id], []) else Err(Unresolved(id))
  }

  /** `resolve_snref` over a short-name dictionary. */
  function ResolveSnref(items: map<string, Entity>, name: string): (r: Outcome<Entity>)
    ensures r.Ok? <==> name in items
    ensures r.Ok? ==> r.value == items[name] && r.warnings == []
    ensures r.Err? ==> r.failure == Unresolved(name)
  {
    if name in items then Ok(items[name], []) else Err(Unresolved(name))
  }

  /** A list of references resolved in order: the first one missing aborts. */
  function ResolveAll(db: LinkDatabase, ids: seq<OdxLinkId>): (r: Outcome<seq<Entity>>)
    ensures r.Ok? <==> forall i :: 0 <= i < |ids| ==> ids[i] in db
    ensures r.Ok? ==> |r.value| == |ids| && r.warnings == []
                      && forall i :: 0 <= i < |ids| ==> r.value[i] == db[ids[i]]
    ensures r.Err? ==> exists i :: 0 <= i < |ids| && ids[i] !in db && r.failure == Unresolved(ids[i])
                                   && forall j :: 0 <= j < i ==> ids[j] in db
  {
    if ids == [] then Ok([], [])
    else
      match Resolve(db, ids[0])
      case Err(f) => Err(f)
      case Ok(first, _) =>
        match ResolveAll(db, ids[1..])
        case Err(f) =>
          assert forall j :: 0 <= j < |ids| - 1 ==> ids[1..][j] == ids[j + 1];
          Err(f)
        case Ok(rest, _) =>
          assert forall j :: 0 < j < |ids| ==> ids[j] == ids[1..][j - 1];
          Ok([first] + rest, [])
  }

  /** A sub-element of a row (state transition ref, pre-condition state
      ref, special data group), reduced to the ODXLINK entries its own
      `_build_odxlinks` contributes. */
  datatype SubElement = SubElement(links: map<OdxLinkId, Entity>)

  /** `dict.update` with each sub-element's entries, in order: later
      entries replace earlier ones under the same identifier. */
  function Merge(base: map<OdxLinkId, Entity>, subs: seq<SubElement>): map<OdxLinkId, Entity>
  {
    if subs == [] then base else Merge(base, subs[..|subs| - 1]) + subs[|subs| - 1].links
  }

  /** The merged dictionary has exactly the identifiers of the base and of
      the sub-elements. */
  lemma {:induction false} MergeKeys(base: map<OdxLinkId, Entity>, subs: seq<SubElement>, id: OdxLinkId)
    ensures id in Merge(base, subs) <==>
              id in base || exists i :: 0 <= i < |subs| && id in subs[i].links
  {
    if subs != [] {
      var init := subs[..|subs| - 1];
      MergeKeys(base, init, id);
      if exists i :: 0 <= i < |subs| && id in subs[i].links {
        var i :| 0 <= i < |subs| && id in subs[i].links;
        if i < |subs| - 1 {
          assert init[i] == subs[i];
        }
      }
      if exists i :: 0 <= i < |init| && id in init[i].links {
        var i :| 0 <= i < |init| && id in init[i].links;
        assert subs[i] == init[i];
      }
    }
  }

  /** The last sub-element that names an identifier decides its entry. */
  lemma {:induction false} MergeLastWins(base: map<OdxLinkId, Entity>, subs: seq<SubElement>, i: nat, id: OdxLinkId)
    requires i < |subs| && id in subs[i].links
    requires forall j :: i < j < |subs| ==> id !in subs[j].links
    ensures id in Merge(base, subs) && Merge(base, subs)[id] == subs[i].links[id]
  {
    var init := subs[..|subs| - 1];
    if i < |subs| - 1 {
      assert init[i] == subs[i];
      MergeLastWins(base, init, i, id);
    }
  }

  /** An identifier no sub-element names keeps its base entry. */
  lemma {:induction false} MergeKeepsBase(base: map<OdxLinkId, Entity>, subs: seq<SubElement>, id: OdxLinkId)
    requires id in base
    requires forall j :: 0 <= j < |subs| ==> id !in subs[j].links
    ensures id in Merge(base, subs) && Merge(base, subs)[id] == base[id]
  {
    if subs != [] {
      var init := subs[..|subs| - 1];
      assert forall j :: 0 <= j < |init| ==> init[j] == subs[j];
      MergeKeepsBase(base, init, id);
    }
  }
}
