# odxtools core in Dafny

This is a model of four pieces of odxtools, a Python library for ODX
diagnostic descriptions. Each piece is modelled with proofs about its
behaviour:

- **STANDARD-LENGTH-TYPE** (`standard_length_type.dfy`, over `bits.dfy`,
  `bytes.dfy` and `text.dfy`) is the diag coded type of fixed bit length.
  The model covers:
  - reading BIT-LENGTH, BIT-MASK and IS-CONDENSED;
  - the check that only A_UINT32, A_INT32 and A_BYTEFIELD carry a mask;
  - the static bit length;
  - the used-bits mask handed to the encoder, with its byte order;
  - applying and removing the mask, as a plain AND or condensed. A
    condensed mask packs the selected bits together on encoding and
    spreads them back out on decoding. The model keeps the code's
    bit-by-bit loops and proves them against `Bits.Gather` and
    `Bits.Scatter`;
  - what `encode_into_pdu` and `decode_from_pdu` hand to the PDU state.
- **TABLE-ROW** (`table_row.dfy`, over `odx_links.dfy`) is a class whose
  resolution phases fill in the structure, DOP, table, typed key and
  functional classes. The model covers the flags, the selector checks of
  `__post_init__`, `tablerow_from_et`, `_build_odxlinks`, both resolution
  phases and the accessors. An accessor fails with AttributeError before
  its phase has run.
- **TABLE-ENTRY parameter** (`table_entry_parameter.dfy`) covers reading
  TARGET and TABLE-ROW-REF, resolving the row, and the members that raise
  NotImplementedError.
- **DESC** (`description.dfy`) covers assembling the raw XHTML text up to
  EXTERNAL-DOCS, normalising whitespace line by line, reading external
  documents, and `from_string`/`str`.

odxtools reports problems through `odxraise`, `odxassert` and
`odxrequire`. The model's `Odx.Outcome` captures this. A `strict` flag
decides the behaviour: in strict mode a report aborts with `Err`, and
otherwise the message is added to `warnings` and the code goes on with
the fallback the code gives.

In condensed mode the code packs the internal value's masked bits on
encoding (for mask `0b10110000`, internal `0b10010000` goes out as
`0b101`). An internal `0b101` has none of the masked bits set, so it goes
out as 0 and does not come back as `0b101`. The model follows the code;
`StandardLength.CondensedExample` states both cases.

The `__post_init__` report of a mask on a non-maskable type is written
without its `f` prefix (see "## Findings"). `StandardLength.ConstructAsWritten`
models it as written; `StandardLength.FromEt` goes through the corrected
`StandardLength.Construct`, whose report names the base data type.

## Model

| member | source | states |
|---|---|---|
| StandardLength.StaticBitLengthCases | odxtools/standardlengthtype.py:181-188 | condensed with a mask: the popcount of the mask, independent of the declared length; otherwise the declared BIT-LENGTH |
| StandardLength.ParseBitLength | odxtools/standardlengthtype.py:38 | a missing BIT-LENGTH fails; success exactly yields the decimal value of the stripped text; every non-empty decimal text is accepted |
| StandardLength.ParseBitMask | odxtools/standardlengthtype.py:39-48 | no mask exactly when the text is absent or blank after stripping; otherwise the hex value of the stripped text; fails exactly on non-hex text |
| StandardLength.BitMaskTextRoundTrip | odxtools/standardlengthtype.py:40-48 | the hex spelling of any mask, padded with any whitespace, reads back as that mask |
| StandardLength.BlankBitMaskIsNoMask | odxtools/standardlengthtype.py:46-47 | a whitespace-only BIT-MASK declares no mask |
| StandardLength.OddLengthBitMask | odxtools/standardlengthtype.py:41-48 | an odd number of hex digits is accepted (" f0f\n" gives 0xf0f) |
| StandardLength.Construct | odxtools/standardlengthtype.py:54-60 | fails exactly in strict mode with a mask on a non-maskable base type; otherwise keeps the type unchanged and warns exactly in that case |
| StandardLength.ConstructAsWritten | odxtools/standardlengthtype.py:54-60 | as written: fails exactly in strict mode with a mask on a non-maskable base type; otherwise keeps the type and reports the literal placeholder text exactly in that case |
| StandardLength.AsWrittenReportIgnoresType | odxtools/standardlengthtype.py:57-60 | as written, the report is the same literal placeholder text for every offending base type |
| StandardLength.ReportNamesType | odxtools/standardlengthtype.py:57-60 | corrected, two different offending base types give different reports |
| StandardLength.FromEt | odxtools/standardlengthtype.py:32-52 | goes through the corrected `Construct`; on success: bit length, bit mask and IS-CONDENSED are the parsed values, and a strict result's mask sits on a maskable type |
| StandardLength.UsedMask | odxtools/standardlengthtype.py:62-102 | None exactly without a mask; condensed: ceil(popcount/8) bytes whose value is popcount one bits; simple: as many bytes as the value (or the static length) with the mask cut to them |
| StandardLength.UsedMaskBits | odxtools/standardlengthtype.py:81-102 | bit i of the used mask is set iff i < popcount(mask) when condensed, and iff mask bit i is set within the value's bytes otherwise |
| StandardLength.UsedMaskByteOrder | odxtools/standardlengthtype.py:71-79 | the used mask is byte-reversed exactly for non-high-low A_INT32, A_UINT32, A_FLOAT32 and A_FLOAT64, and is otherwise the high-low one |
| StandardLength.ApplyMask | odxtools/standardlengthtype.py:104-142 | the loop computes the condensed packing (Bits.Gather), the simple branch the AND, with the error paths of non-integer values |
| StandardLength.UnapplyMask | odxtools/standardlengthtype.py:144-179 | the loop computes the condensed spreading (Bits.Scatter), the simple branch the AND, with the same error paths |
| StandardLength.NoMaskIsIdentity | odxtools/standardlengthtype.py:68-69 | without a mask, apply and unapply pass every value through and the used mask is None |
| StandardLength.SimpleMaskIdempotent | odxtools/standardlengthtype.py:134-139 | simple mode: apply equals unapply, is idempotent, keeps the byte length and computes value AND mask |
| StandardLength.CondensedIntRoundTrip | odxtools/standardlengthtype.py:118-132 | a condensed integer fits the static bit length, and unapplying it restores value AND mask |
| StandardLength.CondensedMaskedBitsOnly | odxtools/standardlengthtype.py:118-170 | condensed packing reads only the masked bits of an integer, and an unpacked integer has its set bits inside the mask and is at most the mask |
| StandardLength.CondensedBytesRoundTrip | odxtools/standardlengthtype.py:108-139 | condensed byte fields keep their length, and unapplying gives what the simple AND mask gives |
| StandardLength.CondensedDecodeThenEncode | odxtools/standardlengthtype.py:157-170 | re-applying the mask to a decoded integer gives the raw value's popcount(mask) low bits |
| StandardLength.CondensedBytesOverflow | odxtools/standardlengthtype.py:167-168 | mask 0x100 on the one-byte raw value 0x01 spreads to 0x100, and `to_bytes` fails with OverflowError |
| StandardLength.CondensedExample | odxtools/standardlengthtype.py:118-132 | mask 0b10110000: static length 3, 0x90 goes out as 5 and 5 comes back as 0x90, and 5 goes out as 0 |
| StandardLength.SimpleExample | odxtools/standardlengthtype.py:134-135 | mask 0x0f: 0xff goes out as 0x0f and 0x0f comes back unchanged |
| StandardLength.UnsupportedValueRejected | odxtools/standardlengthtype.py:114-179 | floats and strings under a mask abort in strict mode; otherwise one report, and the condensed branch yields None while the simple one passes the value through |
| StandardLength.EncodeIntoPdu | odxtools/standardlengthtype.py:190-198 | the encoder receives the masked value, the used mask and the declared bit length; a failing mask leaves the encoder state unchanged |
| StandardLength.DecodeFromPdu | odxtools/standardlengthtype.py:200-209 | the declared bit length is requested from the decoder, and the result is the raw value with the mask removed |
| Bits.CondensedApply | odxtools/standardlengthtype.py:118-127 | the bit-by-bit packing loop computes Gather(value, mask) |
| Bits.CondensedUnapply | odxtools/standardlengthtype.py:157-165 | the bit-by-bit spreading loop computes Scatter(raw, mask) |
| Bits.GatherBit | odxtools/standardlengthtype.py:122-125 | bit k of the packed value is the value's bit at the k-th one bit of the mask |
| Bits.ScatterBit | odxtools/standardlengthtype.py:160-163 | bit k of the raw value lands at the k-th one bit of the mask |
| Bits.ScatterInsideMask | odxtools/standardlengthtype.py:160-163 | every set bit of a spread value lies inside the mask |
| Bits.GatherBelow | odxtools/standardlengthtype.py:118-132 | a packed value fits in popcount(mask) bits, the static bit length |
| Bits.ScatterGather | odxtools/standardlengthtype.py:118-165 | spreading a packed value restores exactly the masked bits |
| Bits.GatherScatter | odxtools/standardlengthtype.py:118-165 | packing a spread value keeps the raw value's popcount(mask) low bits |
| Bytes.ToBytes | odxtools/standardlengthtype.py:91 | `to_bytes` succeeds exactly when the value fits the byte count, and the bytes read back as the value in the same byte order |
| Bytes.BytesRoundTrip | odxtools/standardlengthtype.py:137-139 | `to_bytes(from_bytes(b), len(b))` gives back b in either byte order |
| Text.StripBounds | odxtools/standardlengthtype.py:46 | `strip` keeps an infix with whitespace outside it and no whitespace at either of its ends |
| Text.SplitJoin | odxtools/description.py:48-50 | splitting on line feeds gives line-feed free lines, one more than the line feeds, which join back to the text |
| Text.JoinSplit | odxtools/description.py:48-50 | joining line-feed free lines and splitting gives the lines back |
| Text.StripJoin | odxtools/description.py:50 | stripping joined clean lines drops only empty lines at either end |
| TableRows.FlagDefaults | odxtools/tablerow.py:57-67 | IS-EXECUTABLE defaults to true, IS-MANDATORY and IS-FINAL to false; only an explicit value changes them |
| TableRows.SelectorCheckReports | odxtools/tablerow.py:73-82 | a structure or DOP given by both ODXLINK and SNREF is reported once each, and aborts in strict mode |
| TableRows.TableRow.constructor | odxtools/tablerow.py:69-71 | all fields as given; structure and DOP None; table, key and functional classes not yet set |
| TableRows.FromEt | odxtools/tablerow.py:84-87 | `from_et` always raises RuntimeError |
| TableRows.TableRowFromEt | odxtools/tablerow.py:89-151 | fails exactly in strict mode on a missing KEY or a doubly given selector; otherwise a fresh row with every field of the element (identifier, short name, semantic, key, selectors, sub-element and functional-class lists, flags), structure and DOP None, table, key and functional classes not yet set, and one report per problem |
| TableRows.TableRow.BuildOdxLinks | odxtools/tablerow.py:153-165 | the three update loops produce the row's own entry merged with its sub-elements' entries in order |
| TableRows.OwnIdLinksToRow | odxtools/tablerow.py:153-165 | the row's identifier maps to the row unless a sub-element registers the same identifier |
| TableRows.OwnLinksKeys | odxtools/tablerow.py:153-165 | the row registers exactly its own identifier and those of its sub-elements |
| OdxLinks.MergeLastWins | odxtools/tablerow.py:156-163 | the last sub-element naming an identifier decides its entry |
| OdxLinks.MergeKeepsBase | odxtools/tablerow.py:154-163 | an identifier no sub-element names keeps its earlier entry |
| TableRows.TableRow.ResolveOdxLinks | odxtools/tablerow.py:167-190 | succeeds exactly when every reference resolves (and, in strict mode, the DOP is simple); sets structure and DOP only when referenced, always sets the table and functional classes; a non-simple DOP is stored, then reported |
| OdxLinks.ResolveAll | odxtools/tablerow.py:189-190 | the functional classes resolve in order, and the first missing reference aborts |
| TableRows.TypedKey | odxtools/tablerow.py:198-208 | the raw key string when the table has no key DOP, otherwise the key converted to the key DOP's type |
| TableRows.TableRow.ResolveSnrefs | odxtools/tablerow.py:192-217 | before the first phase: AttributeError and nothing changes; otherwise sets the typed key, needs a diag layer, and replaces structure and DOP only when their SNREF is given |
| TableRows.TableRow.Table | odxtools/tablerow.py:228-230 | the resolved table, AttributeError before the first phase |
| TableRows.TableRow.Key | odxtools/tablerow.py:234-236 | the typed key, AttributeError before the second phase |
| TableRows.TableRow.FunctionalClasses | odxtools/tablerow.py:53-55 | the resolved functional classes, AttributeError before the first phase |
| TableEntryParameters.RowFragmentRoundTrip | odxtools/parameters/tableentryparameter.py:21-23 | KEY and STRUCT read back as themselves, and no other text names a fragment |
| TableEntryParameters.ParseTarget | odxtools/parameters/tableentryparameter.py:56-61 | a known TARGET is read silently; a missing or unknown one aborts in strict mode and otherwise leaves the target None, with two reports (missing) or one (unknown) |
| TableEntryParameters.ParameterTypeIsTableEntry | odxtools/parameters/tableentryparameter.py:31-44 | the parameter type is TABLE-ENTRY, and is_required and is_settable raise |
| TableEntryParameters.TableEntryParameter.IsRequired | odxtools/parameters/tableentryparameter.py:36-39 | raises NotImplementedError with the source's message |
| TableEntryParameters.TableEntryParameter.IsSettable | odxtools/parameters/tableentryparameter.py:41-44 | raises NotImplementedError with the source's message |
| TableEntryParameters.TableEntryParameterFromEt | odxtools/parameters/tableentryparameter.py:50-64 | fails exactly in strict mode on a missing or unknown TARGET or a missing TABLE-ROW-REF; otherwise a fresh, unresolved parameter with the parsed fields and one report per problem |
| TableEntryParameters.TableEntryParameter.ResolveOdxLinks | odxtools/parameters/tableentryparameter.py:66-73 | the base resolution runs first; the row is set exactly when that succeeds and the reference resolves |
| TableEntryParameters.TableEntryParameter.TableRow | odxtools/parameters/tableentryparameter.py:46-48 | the resolved row, AttributeError before resolution |
| TableEntryParameters.TableEntryParameter.EncodePositionedIntoPdu | odxtools/parameters/tableentryparameter.py:75-78 | raises NotImplementedError |
| TableEntryParameters.TableEntryParameter.DecodePositionedFromPdu | odxtools/parameters/tableentryparameter.py:80-82 | raises NotImplementedError |
| Descriptions.ExternalDocFromEt | odxtools/description.py:14-23 | None for a missing element; HREF required (fatal only in strict mode); the description is the element text |
| Descriptions.ExternalDocsFromEt | odxtools/description.py:52-55 | one external document per element, in order; fails exactly in strict mode when some HREF is missing |
| Descriptions.FirstExternalDocs | odxtools/description.py:41-43 | the position of the first EXTERNAL-DOCS child, every child before it being something else |
| Descriptions.AssembleRawText | odxtools/description.py:40-44 | the loop with its break yields the element text followed by the children before the first EXTERNAL-DOCS |
| Descriptions.NormalizeLines | odxtools/description.py:46-50 | the text keeps a contiguous run of the stripped lines, and only empty lines are dropped at either end |
| Descriptions.NormalizeIsNormalized | odxtools/description.py:46-50 | the text has no whitespace around it nor around any of its lines |
| Descriptions.NormalizedIsFixed | odxtools/description.py:46-50 | normalising an already normalised text leaves it unchanged |
| Descriptions.NormalizeIdempotent | odxtools/description.py:46-50 | normalising twice is normalising once |
| Descriptions.DescriptionFromEt | odxtools/description.py:33-59 | computes the description of the element: None for none, otherwise the normalised raw text, the external documents and TI |
| Descriptions.DescriptionOfResult | odxtools/description.py:33-59 | a parsed description has normalised text, the element's TI and one external document per element; it fails exactly in strict mode on a missing HREF |
| Descriptions.StringRoundTrip | odxtools/description.py:61-66 | `str` undoes `from_string`; `from_string` undoes `str` exactly without external documents and TI |

## Left out

- Integers are naturals: negative internal values and masks (Python's two's-complement `&` on negative ints) are not modelled.
- ParseBitLength: the forms of `int()` beyond ASCII digits (sign, underscores, non-ASCII digits) are not modelled; they are rejected here.
- ParseBitMask: the `0x` prefix, sign and underscores that `int(s, 16)` also accepts are not modelled; they are rejected here.
- `DiagCodedType.from_et` and the base fields it reads (base data type, encoding, byte order) are given as parameters, since that class is not part of this model.
- `EncodeState.emplace_atomic_value` and `DecodeState.extract_atomic_value` are reduced to the requests they receive; the bit placement in the PDU is not part of this model, and the extracted value is a parameter of `DecodeFromPdu`.
- Floating point values appear only as an opaque `real`, and only on the error paths of the mask.
- `OdxLinkDatabase.resolve` and `resolve_snref` are modelled as map lookups; their type checks (the expected class argument) and document fragments are left out.
- The `_resolve_odxlinks` and `_resolve_snrefs` calls on state transition refs, pre-condition state refs and SDGs are left out; those classes are not part of this model. Only the link entries they contribute to `_build_odxlinks` are kept.
- AUDIENCE, ADMIN-DATA and the SDG contents are read by other classes and are not modelled.
- `TableRow.__reduce__` (pickling) is not modelled.
- The XML serialization of DESC children (`ElementTree.tostring`) is given as each child's `serialized` text.
- TableRows.TypedKey: `DataType.from_string` is a parameter (`KeyConverter`); its conversion rules are not modelled.
- TableEntryParameters.TableEntryParameter.ResolveOdxLinks: `Parameter._resolve_odxlinks` of the base class is given as an outcome parameter. A missing TABLE-ROW-REF (possible only after a non-strict read) is modelled as an AttributeError.
- unitgroup.py, envdata.py, outputparam.py and relateddoc.py are context only and are not part of this model.

## Findings

| source | as written | input that shows it | evidently intended | confidence | as-written member | corrected member |
|---|---|---|---|---|---|---|
| odxtools/standardlengthtype.py:59 | the message string lacks its `f` prefix, so `{self.base_data_type}` is reported literally | a STANDARD-LENGTH-TYPE with base type A_FLOAT32 and a BIT-MASK | the report names the offending base data type | high (by reading; not executed) | StandardLength.AsWrittenReportIgnoresType | StandardLength.ReportNamesType |
