/** TABLE-ROW: a row of a TABLE whose KEY selects either a structure or a
    simple DOP. A row is built from XML, then resolved in two phases:
    ODXLINK references first, short-name references and the typed key
    second. */
module TableRows {
  import opened Odx
  import opened OdxLinks

  /** The diagnostic layer of a short-name resolution context, reduced to the
      two dictionaries of its DIAG-DATA-DICTIONARY-SPEC that a row reads. */
  datatype DiagDataDictionarySpec = DiagDataDictionarySpec(
    structures: map<string, Entity>,
    dataObjectProps: map<string, Entity>)

  datatype SnRefContext = SnRefContext(diagLayer: Option<DiagDataDictionarySpec>)

  /** `DataType.from_string`, applied to the raw key; its conversion rules
      are not part of this model. */
  type KeyConverter = (DataType, Option<string>) -> Outcome<Option<AtomicValue>>

  /** The already-extracted XML of a TABLE-ROW. */
  datatype TableRowElement = TableRowElement(
    odxId: OdxLinkId,
    shortName: string,
    semantic: Option<string>,
    key: Option<string>,
    structureRef: Option<OdxLinkId>,
    structureSnref: Option<string>,
    dopRef: Option<OdxLinkId>,
    dopSnref: Option<string>,
    sdgs: seq<SubElement>,
    functionalClassRefs: seq<OdxLinkId>,
    stateTransitionRefs: seq<SubElement>,
    preConditionStateRefs: seq<SubElement>,
    isExecutable: Option<bool>,
    isMandatory: Option<bool>,
    isFinal: Option<bool>)

  const FromEtMessage: string := "Calling TableRow.from_et() is not allowed. Use TableRow.tablerow_from_et()."
  const SimpleDopMessage: string := "The DOP-REF of TABLE-ROWs must reference a simple DOP!"

  function SelectorMessage(shortName: string, what: string): string
  {
    "Table row " + shortName + ": The " + what + " can either be defined using ODXLINK or SNREF but not both."
  }

  /** `TableRow.from_et` refuses to run whatever the element. */
  function FromEt(e: TableRowElement): (r: Outcome<()>)
    ensures r.Err? && r.failure == RuntimeError(FromEtMessage)
  {
    Err(RuntimeError(FromEtMessage))
  }

  /** The key the row exposes once resolved: the raw text when the table has
      no key DOP, otherwise the raw text converted to the key DOP's type. */
  function TypedKey(keyDopType: Option<DataType>, keyRaw: Option<string>,
                    fromString: KeyConverter): (r: Outcome<Option<AtomicValue>>)
    ensures keyDopType.None? ==>
              r == Ok(if keyRaw.Some? then Some(StringValue(keyRaw.value)) else None, [])
    ensures keyDopType.Some? ==> r == fromString(keyDopType.value, keyRaw)
  {
    match keyDopType
    case None => Ok(if keyRaw.Some? then Some(StringValue(keyRaw.value)) else None, [])
    case Some(d) => fromString(d, keyRaw)
  }

  class TableRow {
    const odxId: OdxLinkId
    const shortName: string
    const keyRaw: Option<string>
    const tableRef: OdxLinkId
    const dopRef: Option<OdxLinkId>
    const dopSnref: Option<string>
    const structureRef: Option<OdxLinkId>
    const structureSnref: Option<string>
    const sdgs: seq<SubElement>
    const functionalClassRefs: seq<OdxLinkId>
    const stateTransitionRefs: seq<SubElement>
    const preConditionStateRefs: seq<SubElement>
    const isExecutableRaw: Option<bool>
    const semantic: Option<string>
    const isMandatoryRaw: Option<bool>
    const isFinalRaw: Option<bool>

    // Set by the resolution phases; a Slot is Absent until its phase ran.
    var structure: Option<Entity>
    var dop: Option<Entity>
    var table: Slot<Entity>
    var key: Slot<Option<AtomicValue>>
    var functionalClasses: Slot<seq<Entity>>

    /** The dataclass initialiser together with the attribute set-up of
        `__post_init__`: structure and DOP start as None, the attributes of
        the resolution phases do not exist yet. */
    constructor (odxId: OdxLinkId, shortName: string, keyRaw: Option<string>, tableRef: OdxLinkId,
                 dopRef: Option<OdxLinkId>, dopSnref: Option<string>,
                 structureRef: Option<OdxLinkId>, structureSnref: Option<string>,
                 sdgs: seq<SubElement>, functionalClassRefs: seq<OdxLinkId>,
                 stateTransitionRefs: seq<SubElement>, preConditionStateRefs: seq<SubElement>,
                 isExecutableRaw: Option<bool>, semantic: Option<string>,
                 isMandatoryRaw: Option<bool>, isFinalRaw: Option<bool>)
      ensures this.odxId == odxId && this.shortName == shortName && this.keyRaw == keyRaw
      ensures this.tableRef == tableRef && this.dopRef == dopRef && this.dopSnref == dopSnref
      ensures this.structureRef == structureRef && this.structureSnref == structureSnref
      ensures this.sdgs == sdgs && this.functionalClassRefs == functionalClassRefs
      ensures this.stateTransitionRefs == stateTransitionRefs
      ensures this.preConditionStateRefs == preConditionStateRefs
      ensures this.isExecutableRaw == isExecutableRaw && this.semantic == semantic
      ensures this.isMandatoryRaw == isMandatoryRaw && this.isFinalRaw == isFinalRaw
      ensures structure.None? && dop.None?
      ensures table.Absent? && key.Absent? && functionalClasses.Absent?
    {
      this.odxId := odxId;
      this.shortName := shortName;
      this.keyRaw := keyRaw;
      this.tableRef := tableRef;
      this.dopRef := dopRef;
      this.dopSnref := dopSnref;
      this.structureRef := structureRef;
      this.structureSnref := structureSnref;
      this.sdgs := sdgs;
      this.functionalClassRefs := functionalClassRefs;
      this.stateTransitionRefs := stateTransitionRefs;
      this.preConditionStateRefs := preConditionStateRefs;
      this.isExecutableRaw := isExecutableRaw;
      this.semantic := semantic;
      this.isMandatoryRaw := isMandatoryRaw;
      this.isFinalRaw := isFinalRaw;
      structure := None;
      dop := None;
      table := Absent;
      key := Absent;
      functionalClasses := Absent;
    }

    predicate IsExecutable()
    {
      isExecutableRaw == None || isExecutableRaw == Some(true)
    }

    predicate IsMandatory()
    {
      isMandatoryRaw == Some(true)
    }

    predicate IsFinal()
    {
      isFinalRaw == Some(true)
    }

    predicate BothStructureSelectors()
    {
      structureRef.Some? && structureSnref.Some?
    }

    predicate BothDopSelectors()
    {
      dopRef.Some? && dopSnref.Some?
    }

    /** The two checks of `__post_init__`: the structure and the DOP may each
        be given by ODXLINK or by SNREF, not both. */
    function SelectorCheck(strict: bool): (r: Outcome<()>)
    {
      Then(Assert(strict, !BothStructureSelectors(), SelectorMessage(shortName, "structure")),
           Assert(strict, !BothDopSelectors(), SelectorMessage(shortName, "dop")))
    }

    /** The ODXLINK entries this row contributes: its own identifier, then
        those of its state transition refs, pre-condition state refs and
        special data groups, later ones replacing earlier ones. */
    function OwnLinks(): map<OdxLinkId, Entity>
    {
      Merge(Merge(Merge(map[odxId := TableRowEntity(odxId)], stateTransitionRefs),
                  preConditionStateRefs), sdgs)
    }

    /** `_build_odxlinks` */
    method BuildOdxLinks() returns (result: map<OdxLinkId, Entity>)
      ensures result == OwnLinks()
    {
      result := map[odxId := TableRowEntity(odxId)];
      ghost var start := result;
      for i := 0 to |stateTransitionRefs|
        invariant result == Merge(start, stateTransitionRefs[..i])
      {
        assert stateTransitionRefs[..i + 1][..i] == stateTransitionRefs[..i];
        result := result + stateTransitionRefs[i].links;
      }
      assert stateTransitionRefs[..|stateTransitionRefs|] == stateTransitionRefs;
      start := result;
      for i := 0 to |preConditionStateRefs|
        invariant result == Merge(start, preConditionStateRefs[..i])
      {
        assert preConditionStateRefs[..i + 1][..i] == preConditionStateRefs[..i];
        result := result + preConditionStateRefs[i].links;
      }
      assert preConditionStateRefs[..|preConditionStateRefs|] == preConditionStateRefs;
      start := result;
      for i := 0 to |sdgs|
        invariant result == Merge(start, sdgs[..i])
      {
        assert sdgs[..i + 1][..i] == sdgs[..i];
        result := result + sdgs[i].links;
      }
      assert sdgs[..|sdgs|] == sdgs;
    }

    /** Every ODXLINK reference of the first phase can be followed, and a
        referenced DOP that is not simple is only tolerated when not strict. */
    predicate LinksResolvable(db: LinkDatabase, strict: bool)
    {
      (structureRef.None? || structureRef.value in db)
      && (dopRef.None? || (dopRef.value in db && (!strict || IsSimpleDop(db[dopRef.value]))))
      && tableRef in db
      && (forall i :: 0 <= i < |functionalClassRefs| ==> functionalClassRefs[i] in db)
    }

    /** `_resolve_odxlinks`: structure and DOP are only set when their
        ODXLINK is given, the table and the functional classes always; a DOP
        that is neither a DATA-OBJECT-PROP nor a DTC-DOP is reported after it
        has been stored. */
    method ResolveOdxLinks(db: LinkDatabase, strict: bool) returns (r: Outcome<()>)
      modifies this
      ensures r.Ok? <==> LinksResolvable(db, strict)
      ensures r.Ok? ==>
                structure == (if structureRef.Some? then Some(db[structureRef.value]) else old(structure))
                && dop == (if dopRef.Some? then Some(db[dopRef.value]) else old(dop))
                && table == Present(db[tableRef])
                && functionalClasses == Present(ResolveAll(db, functionalClassRefs).value)
                && r.warnings == (if dopRef.Some? && !IsSimpleDop(db[dopRef.value]) then [SimpleDopMessage] else [])
      ensures structureRef.Some? && structureRef.value !in db ==>
                r == Err(Unresolved(structureRef.value)) && unchanged(this)
      ensures strict && dopRef.Some? && dopRef.value in db && !IsSimpleDop(db[dopRef.value])
              && (structureRef.None? || structureRef.value in db) ==>
                r == Err(OdxError(SimpleDopMessage)) && dop == Some(db[dopRef.value]) && table == old(table)
      ensures key == old(key)
    {
      if structureRef.Some? {
        var s := Resolve(db, structureRef.value);
        if s.Err? {
          return Err(s.failure);
        }
        structure := Some(s.value);
      }
      var warnings: seq<string> := [];
      if dopRef.Some? {
        var d := Resolve(db, dopRef.value);
        if d.Err? {
          return Err(d.failure);
        }
        dop := Some(d.value);
        if !IsSimpleDop(d.value) {
          var reported := Raise(strict, SimpleDopMessage, ());
          if reported.Err? {
            return Err(reported.failure);
          }
          warnings := reported.warnings;
        }
      }
      var t := Resolve(db, tableRef);
      if t.Err? {
        return Err(t.failure);
      }
      table := Present(t.value);
      var classes := ResolveAll(db, functionalClassRefs);
      if classes.Err? {
        return Err(classes.failure);
      }
      functionalClasses := Present(classes.value);
      r := Ok((), warnings);
    }

    /** Every short-name reference of the second phase can be followed and
        the key converts. */
    predicate SnrefsResolvable(context: SnRefContext, fromString: KeyConverter)
      reads this
    {
      table.Present? && table.value.Table?
      && TypedKey(table.value.keyDopType, keyRaw, fromString).Ok?
      && context.diagLayer.Some?
      && (structureSnref.None? || structureSnref.value in context.diagLayer.value.structures)
      && (dopSnref.None? || dopSnref.value in context.diagLayer.value.dataObjectProps)
    }

    /** `_resolve_snrefs`: needs the table of the first phase; types the key;
        needs a diagnostic layer; replaces structure and DOP only when their
        SNREF is given. */
    method ResolveSnrefs(context: SnRefContext, fromString: KeyConverter, strict: bool)
      returns (r: Outcome<()>)
      modifies this
      ensures old(table).Absent? ==> r.Err? && r.failure.AttributeError? && unchanged(this)
      ensures r.Ok? <==> SnrefsResolvable(context, fromString)
      ensures r.Ok? ==>
                key == Present(TypedKey(table.value.keyDopType, keyRaw, fromString).value)
                && r.warnings == TypedKey(table.value.keyDopType, keyRaw, fromString).warnings
                && structure == (if structureSnref.Some?
                                 then Some(context.diagLayer.value.structures[structureSnref.value])
                                 else old(structure))
                && dop == (if dopSnref.Some?
                           then Some(context.diagLayer.value.dataObjectProps[dopSnref.value])
                           else old(dop))
      ensures old(table).Present? && old(table).value.Table? && old(table).value.keyDopType.None?
              && context.diagLayer.Some? ==>
                key == Present(if keyRaw.Some? then Some(StringValue(keyRaw.value)) else None)
      ensures table == old(table) && functionalClasses == old(functionalClasses)
    {
      if table.Absent? {
        return Err(AttributeError("'TableRow' object has no attribute '_table'"));
      }
      var owner := table.value;
      if !owner.Table? {
        return Err(AttributeError("object has no attribute 'key_dop'"));
      }
      var typed := TypedKey(owner.keyDopType, keyRaw, fromString);
      if typed.Err? {
        return Err(typed.failure);
      }
      key := Present(typed.value);
      if context.diagLayer.None? {
        // odxrequire reports; without strictness the spec lookup on None fails
        if strict {
          return Err(OdxError("The diag layer of the context is required"));
        }
        return Err(AttributeError("'NoneType' object has no attribute 'diag_data_dictionary_spec'"));
      }
      var ddd := context.diagLayer.value;
      if structureSnref.Some? {
        var s := ResolveSnref(ddd.structures, structureSnref.value);
        if s.Err? {
          return Err(s.failure);
        }
        structure := Some(s.value);
      }
      if dopSnref.Some? {
        var d := ResolveSnref(ddd.dataObjectProps, dopSnref.value);
        if d.Err? {
          return Err(d.failure);
        }
        dop := Some(d.value);
      }
      r := Ok((), typed.warnings);
    }

    /** The `table` accessor: AttributeError before the first phase. */
    function Table(): (r: Outcome<Entity>)
      reads this
      ensures r.Ok? <==> table.Present?
      ensures r.Ok? ==> r.value == table.value && r.warnings == []
    {
      if table.Present? then Ok(table.value, []) else Err(AttributeError("'TableRow' object has no attribute '_table'"))
    }

    /** The `key` accessor: AttributeError before the second phase. */
    function Key(): (r: Outcome<Option<AtomicValue>>)
      reads this
      ensures r.Ok? <==> key.Present?
      ensures r.Ok? ==> r.value == key.value && r.warnings == []
    {
      if key.Present? then Ok(key.value, []) else Err(AttributeError("'TableRow' object has no attribute '_key'"))
    }

    /** The `functional_classes` accessor: AttributeError before the first
        phase. */
    function FunctionalClasses(): (r: Outcome<seq<Entity>>)
      reads this
      ensures r.Ok? <==> functionalClasses.Present?
      ensures r.Ok? ==> r.value == functionalClasses.value && r.warnings == []
    {
      if functionalClasses.Present? then Ok(functionalClasses.value, [])
      else Err(AttributeError("'TableRow' object has no attribute '_functional_classes'"))
    }
  }

  /** `is_executable` defaults to true, `is_mandatory` and `is_final` to
      false; only an explicit raw value changes them. */
  lemma FlagDefaults(row: TableRow)
    ensures row.IsExecutable() <==> row.isExecutableRaw != Some(false)
    ensures row.IsMandatory() <==> row.isMandatoryRaw == Some(true)
    ensures row.IsFinal() <==> row.isFinalRaw == Some(true)
    ensures row.isExecutableRaw.None? ==> row.IsExecutable()
    ensures row.isMandatoryRaw.None? ==> !row.IsMandatory()
    ensures row.isFinalRaw.None? ==> !row.IsFinal()
  {
    match row.isExecutableRaw
    case None =>
    case Some(b) => assert b || !b;
  }

  /** Each doubly given selector is reported once; strict mode aborts on
      the first. */
  lemma SelectorCheckReports(row: TableRow, strict: bool)
    ensures row.SelectorCheck(strict).Err? <==>
              strict && (row.BothStructureSelectors() || row.BothDopSelectors())
    ensures row.SelectorCheck(strict).Ok? ==>
              |row.SelectorCheck(strict).warnings|
              == (if row.BothStructureSelectors() then 1 else 0) + (if row.BothDopSelectors() then 1 else 0)
  {
  }

  /** The row's own identifier maps to the row unless a sub-element
      registers the same identifier. */
  lemma OwnIdLinksToRow(row: TableRow)
    requires forall i :: 0 <= i < |row.stateTransitionRefs| ==> row.odxId !in row.stateTransitionRefs[i].links
    requires forall i :: 0 <= i < |row.preConditionStateRefs| ==> row.odxId !in row.preConditionStateRefs[i].links
    requires forall i :: 0 <= i < |row.sdgs| ==> row.odxId !in row.sdgs[i].links
    ensures row.odxId in row.OwnLinks() && row.OwnLinks()[row.odxId] == TableRowEntity(row.odxId)
  {
    var start := map[row.odxId := TableRowEntity(row.odxId)];
    MergeKeepsBase(start, row.stateTransitionRefs, row.odxId);
    var m1 := Merge(start, row.stateTransitionRefs);
    MergeKeepsBase(m1, row.preConditionStateRefs, row.odxId);
    MergeKeepsBase(Merge(m1, row.preConditionStateRefs), row.sdgs, row.odxId);
  }

  /** The row registers exactly its own identifier and those of its
      sub-elements. */
  lemma OwnLinksKeys(row: TableRow, id: OdxLinkId)
    ensures id in row.OwnLinks() <==>
              id == row.odxId
              || (exists i :: 0 <= i < |row.stateTransitionRefs| && id in row.stateTransitionRefs[i].links)
              || (exists i :: 0 <= i < |row.preConditionStateRefs| && id in row.preConditionStateRefs[i].links)
              || (exists i :: 0 <= i < |row.sdgs| && id in row.sdgs[i].links)
  {
    var start := map[row.odxId := TableRowEntity(row.odxId)];
    var m1 := Merge(start, row.stateTransitionRefs);
    var m2 := Merge(m1, row.preConditionStateRefs);
    MergeKeys(start, row.stateTransitionRefs, id);
    MergeKeys(m1, row.preConditionStateRefs, id);
    MergeKeys(m2, row.sdgs, id);
  }

  /** `tablerow_from_et`: KEY is required, every selector is read on its
      own, and the result goes through `__post_init__`. */
  method TableRowFromEt(e: TableRowElement, tableRef: OdxLinkId, strict: bool)
    returns (r: Outcome<TableRow>)
    ensures r.Err? <==> strict && (e.key.None?
                                   || (e.structureRef.Some? && e.structureSnref.Some?)
                                   || (e.dopRef.Some? && e.dopSnref.Some?))
    ensures r.Ok? ==>
              fresh(r.value)
              && r.value.odxId == e.odxId && r.value.shortName == e.shortName
              && r.value.semantic == e.semantic
              && r.value.keyRaw == e.key && r.value.tableRef == tableRef
              && r.value.structureRef == e.structureRef && r.value.structureSnref == e.structureSnref
              && r.value.dopRef == e.dopRef && r.value.dopSnref == e.dopSnref
              && r.value.isExecutableRaw == e.isExecutable && r.value.isMandatoryRaw == e.isMandatory
              && r.value.isFinalRaw == e.isFinal
              && r.value.sdgs == e.sdgs && r.value.functionalClassRefs == e.functionalClassRefs
              && r.value.stateTransitionRefs == e.stateTransitionRefs
              && r.value.preConditionStateRefs == e.preConditionStateRefs
              && r.value.structure.None? && r.value.dop.None?
              && r.value.table.Absent? && r.value.key.Absent? && r.value.functionalClasses.Absent?
              && |r.warnings| == (if e.key.None? then 1 else 0)
                                 + (if r.value.BothStructureSelectors() then 1 else 0)
                                 + (if r.value.BothDopSelectors() then 1 else 0)
  {
    var keyRaw := Require(strict, e.key, "KEY is required");
    if keyRaw.Err? {
      return Err(keyRaw.failure);
    }
    var row := new TableRow(e.odxId, e.shortName, keyRaw.value, tableRef,
                            e.dopRef, e.dopSnref, e.structureRef, e.structureSnref,
                            e.sdgs, e.functionalClassRefs, e.stateTransitionRefs,
                            e.preConditionStateRefs, e.isExecutable, e.semantic,
                            e.isMandatory, e.isFinal);
    assert row.BothStructureSelectors() <==> e.structureRef.Some? && e.structureSnref.Some?;
    assert row.BothDopSelectors() <==> e.dopRef.Some? && e.dopSnref.Some?;
    var checked := row.SelectorCheck(strict);
    SelectorCheckReports(row, strict);
    if checked.Err? {
      return Err(checked.failure);
    }
    r := Ok(row, keyRaw.warnings + checked.warnings);
  }
}
