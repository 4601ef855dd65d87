/** TABLE-ENTRY parameter: a parameter that refers to the KEY or the STRUCT
    of a table row. Only its reading and its link resolution exist; coding
    it is not implemented and says so. */
module TableEntryParameters {
  import opened Odx
  import opened OdxLinks
  import opened StandardLength

  datatype RowFragment = Key | Struct

  /** The enum value of a row fragment. */
  function RowFragmentValue(f: RowFragment): string
  {
    match f
    case Key => "KEY"
    case Struct => "STRUCT"
  }

  /** `RowFragment(s)`: None where Python raises ValueError. The lookup is
      exact: no stripping, no case folding. */
  function RowFragmentOf(s: string): Option<RowFragment>
  {
    if s == "KEY" then Some(Key) else if s == "STRUCT" then Some(Struct) else None
  }

  /** The text of each fragment names it, and no other text names any. */
  lemma RowFragmentRoundTrip(f: RowFragment, s: string)
    ensures RowFragmentOf(RowFragmentValue(f)) == Some(f)
    ensures RowFragmentOf(s).Some? ==> s == RowFragmentValue(RowFragmentOf(s).value)
    ensures RowFragmentOf(s).None? <==> s != "KEY" && s != "STRUCT"
  {
  }

  function UnknownTargetMessage(text: string): string
  {
    "Encountered unknown target '" + text + "'"
  }

  /** The TARGET of `from_et`: required; an unknown value is reported and
      leaves the target None (a missing one too, then with two reports). */
  function ParseTarget(text: Option<string>, strict: bool): (r: Outcome<Option<RowFragment>>)
    ensures text.Some? && RowFragmentOf(text.value).Some? ==> r == Ok(RowFragmentOf(text.value), [])
    ensures r.Err? <==> strict && (text.None? || RowFragmentOf(text.value).None?)
    ensures r.Ok? && (text.None? || RowFragmentOf(text.value).None?) ==>
              r.value.None? && |r.warnings| == (if text.None? then 2 else 1)
  {
    match Require(strict, text, "TARGET is required")
    case Err(f) => Err(f)
    case Ok(targetText, w) =>
      match targetText
      case None => Then(Ok((), w), Raise(strict, UnknownTargetMessage("None"), None))
      case Some(s) =>
        match RowFragmentOf(s)
        case Some(f) => Ok(Some(f), w)
        case None => Then(Ok((), w), Raise(strict, UnknownTargetMessage(s), None))
  }

  /** The already-extracted XML of a TABLE-ENTRY parameter; the fields of
      the Parameter base are reduced to the short name. */
  datatype TableEntryParameterElement = TableEntryParameterElement(
    shortName: string,
    target: Option<string>,
    tableRowRef: Option<OdxLinkId>)

  const EncodeMessage: string := "Encoding a TableEntryParameter is not implemented yet."
  const DecodeMessage: string := "Decoding a TableEntryParameter is not implemented yet."
  const IsRequiredMessage: string := "TableEntryParameter.is_required is not implemented yet."
  const IsSettableMessage: string := "TableEntryParameter.is_settable is not implemented yet."

  class TableEntryParameter {
    const shortName: string
    const target: Option<RowFragment>
    const tableRowRef: Option<OdxLinkId>

    /** Whether the Parameter base's own link resolution has run. */
    var baseResolved: bool
    var tableRow: Slot<Entity>

    constructor (shortName: string, target: Option<RowFragment>, tableRowRef: Option<OdxLinkId>)
      ensures this.shortName == shortName && this.target == target && this.tableRowRef == tableRowRef
      ensures !baseResolved && tableRow.Absent?
    {
      this.shortName := shortName;
      this.target := target;
      this.tableRowRef := tableRowRef;
      baseResolved := false;
      tableRow := Absent;
    }

    function ParameterType(): string
    {
      "TABLE-ENTRY"
    }

    /** `is_required` raises. */
    function IsRequired(): (r: Outcome<bool>)
      ensures r == Err(NotImplemented(IsRequiredMessage))
    {
      Err(NotImplemented(IsRequiredMessage))
    }

    /** `is_settable` raises. */
    function IsSettable(): (r: Outcome<bool>)
      ensures r == Err(NotImplemented(IsSettableMessage))
    {
      Err(NotImplemented(IsSettableMessage))
    }

    /** `_resolve_odxlinks`: the base resolution first (`baseOutcome` is its
        result), then the table row. A failing base resolution leaves the
        row unresolved. */
    method ResolveOdxLinks(db: LinkDatabase, baseOutcome: Outcome<()>) returns (r: Outcome<()>)
      modifies this
      ensures baseResolved
      ensures baseOutcome.Err? ==> r == Err(baseOutcome.failure) && tableRow == old(tableRow)
      ensures baseOutcome.Ok? && tableRowRef.Some? && tableRowRef.value in db ==>
                r == Ok((), baseOutcome.warnings) && tableRow == Present(db[tableRowRef.value])
      ensures baseOutcome.Ok? && tableRowRef.Some? && tableRowRef.value !in db ==>
                r == Err(Unresolved(tableRowRef.value)) && tableRow == old(tableRow)
      ensures tableRowRef.None? ==> r.Err? && tableRow == old(tableRow)
    {
      baseResolved := true;
      if baseOutcome.Err? {
        return Err(baseOutcome.failure);
      }
      if tableRowRef.None? {
        return Err(AttributeError("'NoneType' object has no attribute 'ref_id'"));
      }
      var row := Resolve(db, tableRowRef.value);
      if row.Err? {
        return Err(row.failure);
      }
      tableRow := Present(row.value);
      r := Ok((), baseOutcome.warnings);
    }

    /** The `table_row` accessor: AttributeError before resolution. */
    function TableRow(): (r: Outcome<Entity>)
      reads this
      ensures r.Ok? <==> tableRow.Present?
      ensures r.Ok? ==> r.value == tableRow.value
    {
      if tableRow.Present? then Ok(tableRow.value, [])
      else Err(AttributeError("'TableEntryParameter' object has no attribute '_table_row'"))
    }

    /** `_encode_positioned_into_pdu` raises and emits nothing. */
    method EncodePositionedIntoPdu(physicalValue: Option<AtomicValue>, state: EncodeState)
      returns (r: Outcome<()>)
      ensures r == Err(NotImplemented(EncodeMessage))
    {
      r := Err(NotImplemented(EncodeMessage));
    }

    /** `_decode_positioned_from_pdu` raises and consumes nothing. */
    method DecodePositionedFromPdu(state: DecodeState) returns (r: Outcome<AtomicValue>)
      ensures r == Err(NotImplemented(DecodeMessage))
    {
      r := Err(NotImplemented(DecodeMessage));
    }
  }

  /** `parameter_type` is TABLE-ENTRY whatever the parameter. */
  lemma ParameterTypeIsTableEntry(p: TableEntryParameter)
    ensures p.ParameterType() == "TABLE-ENTRY"
    ensures p.IsRequired().Err? && p.IsSettable().Err?
  {
  }

  /** `from_et`: TARGET and TABLE-ROW-REF are required. */
  method TableEntryParameterFromEt(e: TableEntryParameterElement, strict: bool)
    returns (r: Outcome<TableEntryParameter>)
    ensures r.Err? <==> strict && (ParseTarget(e.target, false).value.None? || e.tableRowRef.None?)
    ensures r.Ok? ==>
              fresh(r.value) && r.value.shortName == e.shortName
              && r.value.target == ParseTarget(e.target, strict).value
              && r.value.tableRowRef == e.tableRowRef
              && r.value.tableRow.Absent? && !r.value.baseResolved
              && |r.warnings| == |ParseTarget(e.target, strict).warnings| + (if e.tableRowRef.None? then 1 else 0)
  {
    var target := ParseTarget(e.target, strict);
    if target.Err? {
      return Err(target.failure);
    }
    var tableRowRef := Require(strict, e.tableRowRef, "TABLE-ROW-REF is required");
    if tableRowRef.Err? {
      return Err(tableRowRef.failure);
    }
    var p := new TableEntryParameter(e.shortName, target.value, tableRowRef.value);
    r := Ok(p, target.warnings + tableRowRef.warnings);
  }
}
