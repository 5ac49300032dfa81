# netbox-rpc: a verified model

This project models the parts of netbox-rpc that decide what is kept, what is recorded and who may act,
and proves what they guarantee. It is written in Dafny 4.11; `dafny verify dfyconfig.toml` checks all of it.

- **Secret redaction.** `Spans`, `Provenance`, `Pieces`, `Masking`, `FixedPoint`, `Redaction`, `EventLimits`
  and `EventText` model the bounded redaction of a text: merged spans, pieces that remember where each character
  came from, the binary search for a kept prefix, the masking of structural spans, and the two fixed points.
  `Markers`, `Labels` and `Insertions` follow the text that redaction itself writes.
- **The ledger form.** `MappingNames`, `CredentialReference`, `SensitiveKeys`, `LedgerForm`,
  `NormalizedParams` and `SchemaRelaxation` model how a JSON value is stored and how a result schema is
  relaxed around truncation; `LedgerWindow` says which entries are kept, `LedgerBounds` and `LeafBounds` that the
  stored tree fits the schema's limits.
- **The ledger itself.** `EventLedger` is the append protocol as a state machine over transactions,
  `EventHistory` what it stores, `Projection` the execution row that follows it, `BackendResponse` the judgement on
  one backend response, `BackendRecord`, `BackendFailure` and `BackendLedger` the records it leaves behind.
- **Command templates.** `Templating` is the static check of one token, `CommandChain` the check of a
  procedure's commands over all creates and edits.
- **Backend transport.** `ClosedResult`, `Transport`, `TransportOutcome` and `TransportAnswer` model the closed
  outcomes of a protected exchange, `ClosedLedger` and `OutcomeLedger` what the ledger makes of them, `BoundedReader` the
  reading loop.
- **Authority.** `DispatchLease` is the lease check against the ledger, `ApproveScope` the serialized edits of
  the procedure table.

Foreign parts are parameters: the secret patterns are any finders of in-bounds, sorted, disjoint spans;
the digest is any function, also one that collides; mapping order is any order per content; `apply`, decoding
and the approve relation are arbitrary. Methods follow the loops and objects of the source and are proved
against functions; the lemmas are about those functions.

## What does not hold

Each of these is stated as a lemma with a concrete input or for every input, and the condition under which
the guarantee does hold is proved.

- Not every closed outcome can be stored. It is if and only if the exchange was an upgrade, or a DNS deployment
  whose requested commit is legal (`OutcomeLedger.StoredExactly`). A runner contract demands a number or null
  under `prior_token_id`, a name that redaction overwrites with a marker string, so the full-schema check of the
  ledger form refuses every runner outcome, also a success. A DNS failure for an illegal commit carries forty
  zeros, which the binding to the requested commit refuses.
- Projecting the caller's event would not follow replay (`Projection.MarkedTextIsNotReplayed`), which is why the
  code projects the stored record. It would if and only if redaction were invisible at every state the run
  reaches (`Projection.CallerFollowsReplayExactly`).
- Moving a command to another procedure passes `clean` but can orphan its consumers, because only the new
  procedure is examined (`CommandChain.MovingAProducerBreaksTheChain`). The old procedure stays sound if and only
  if nothing left there needs the row's variable (`CommandChain.MoveKeepsOldExactly`).
- A later command does not always read what an earlier one captured. A variable may be called `items`, and then
  `vars.items` gives the method of the dictionary (`CommandChain.ItemsReadsTheMethod`). The captured output is read
  if and only if the access is a subscript or dictionaries have no method of that name
  (`CommandChain.NoUnboundLookup`, `CommandChain.AttributeReadsExactly`).
- A character in a secret span can survive redaction: a marker that a pattern finds is replaced by itself
  (`Redaction.FoundMarkerSurvives`). It needs a first pass that leaves the text as it is
  (`Redaction.NoSecretSurvives`), and without structural spans that is if and only if
  (`Redaction.SecretSurvivesExactly`).
- A marker in a result need not be whole: a limit below ten characters leaves its start and the truncation marker
  (`EventText.MarkerIsCut`). Every character that redaction adds is text of one of the two markers, and beside text
  of the original a redaction marker is never broken (`Insertions.OnlyMarkersAreInserted`). When one pass settles the
  text uncut, all markers are whole (`Insertions.OnePassIsWhole`).
- On a database other than PostgreSQL the scope lock does nothing, and two edits can widen a scope together
  (`ApproveScope.WithoutTheLockTwoEditsWiden`). Creating a procedure never takes the lock. An edit whose read is
  still fresh at its commit never widens (`ApproveScope.CommitNeverWidens`), and a stale one widens by way of
  the created procedures only (`ApproveScope.CommitKeepsWhatWasRead`). For every table, every created
  procedure and every edit that changes its row, a creation after the read can let it widen
  (`ApproveScope.CreateBeforeCommitWidens`, `ApproveScope.CreateBeforeCheckWidens`).
- A schema property named `*` beside `items` shares its path with the items, so strip removes a limit that
  collect never registered (`SchemaRelaxation.StarPropertyLosesALimit`). Strip is exact if and only if no narrow
  limit shares a path with a wide one (`SchemaRelaxation.StripIsExact`).
- An empty chunk right after the byte limit ends a read of undeclared length, and later bytes go unnoticed
  (`BoundedReader.EmptyChunkHidesTheRest`, `BoundedReader.UndeclaredExactly`). A declared length gives a body if
  and only if a chunk boundary falls there (`BoundedReader.DeclaredExactly`).

## Model

| member | source | states |
|---|---|---|
| Spans.MergeSpans | netbox_rpc/event_store.py:307-315 | the merging loop over unsorted spans equals the function `MergedSpans` |
| Spans.MergedSpansFacts | netbox_rpc/event_store.py:307-315 | merging any proper spans gives sorted, disjoint spans that cover exactly the same positions |
| Spans.MergedSpansKeepsApart | netbox_rpc/event_store.py:307-315 | a span that overlaps no other comes through unchanged |
| Spans.MergeTouching | netbox_rpc/event_store.py:431-438 | the loop over ordered ranges joins those that touch, as `MergeAll` with touch 1 does |
| Spans.MergeAllFacts | netbox_rpc/event_store.py:431-438 | joined ranges are separated by a gap and cover exactly what the input covered |
| Spans.CoverageDetermines | netbox_rpc/event_store.py:431-438 | separated ranges are determined by what they cover, so the merge has one possible result |
| Pieces.PieceCursor.constructor | netbox_rpc/event_store.py:342-348 | a new cursor stands before the first piece |
| Pieces.PieceCursor.Take | netbox_rpc/event_store.py:350-363 | for any forward sequence of ranges, `take` returns pieces that stand for exactly the requested slice |
| Pieces.KeepUpTo | netbox_rpc/event_store.py:366-387 | the text and the pieces kept before a span agree, byte-order marks at its start included |
| Pieces.RedactSpansTracked | netbox_rpc/event_store.py:366-387 | replacing spans in the text and in its pieces is one and the same splice |
| Pieces.RedactKeeps | netbox_rpc/event_store.py:366-387 | a position survives exactly when no span holds it or it is a leading byte-order mark of its span |
| Insertions.RedactedMarks | netbox_rpc/event_store.py:366-387 | a redacted text has one whole marker for each span, in its place, and no other text of its own |
| Pieces.SearchCommonPrefix | netbox_rpc/event_store.py:390-404 | the binary search finds the common prefix |
| Provenance.CommonPrefixLongest | netbox_rpc/event_store.py:390-404 | that prefix is the longest: a length agrees exactly when it is no longer |
| Pieces.BoundTracked | netbox_rpc/event_store.py:390-404 | bounding a text composes its provenance with the kept prefix and marks the rest as inserted |
| Provenance.SpliceEmbeds | netbox_rpc/event_store.py:366-387 | a splice keeps an order-preserving embedding of equal characters |
| Provenance.SpliceKeeps | netbox_rpc/event_store.py:366-387 | a splice keeps exactly the positions outside the cuts |
| Provenance.ComposeEmbeds | netbox_rpc/event_store.py:495-511 | the embeddings of two passes compose |
| Masking.HitRanges | netbox_rpc/event_store.py:407-428 | the forward walk finds exactly the kept positions whose original index is in a structural span |
| Masking.InsertedRanges | netbox_rpc/event_store.py:441-449 | the ranges cover exactly the inserted positions |
| Masking.GroupTouching | netbox_rpc/event_store.py:452-467 | the sweep over masked and inserted ranges equals its grouping function |
| Masking.AbsorbInserted | netbox_rpc/event_store.py:452-467 | each masked range grows by exactly the inserted positions that touch it in a chain |
| Masking.MaskedRanges | netbox_rpc/event_store.py:407-428 | the result is sorted and separated, and covers exactly the masked positions |
| Masking.MaskedExactly | netbox_rpc/event_store.py:407-467 | a kept position is masked exactly when it came from a structural span; only inserted positions are masked besides |
| Masking.MaskKeeps | netbox_rpc/event_store.py:470-479 | masking keeps exactly the kept characters outside structural spans, in order |
| Insertions.MaskMarks | netbox_rpc/event_store.py:470-479 | a masked text has one whole marker for each maximal run of masked positions, in its place, and no other text of its own |
| Masking.MaskStructural | netbox_rpc/event_store.py:470-479 | the method gives the masked text, whose kept characters and markers the two rows above determine |
| Redaction.FindSecretSpans | netbox_rpc/event_store.py:318-331 | the spans of both patterns, merged |
| Redaction.BaseSpansSurvive | netbox_rpc/event_store.py:318-331 | a base span that meets no header span is a secret span as it is |
| Redaction.PassRedacts | netbox_rpc/event_store.py:482-492 | what one pass keeps lies in no secret span, save a leading byte-order mark |
| Redaction.TrackedPass | netbox_rpc/event_store.py:495-511 | one pass over text and pieces composes the provenance |
| Redaction.BaseFixedPoint | netbox_rpc/event_store.py:495-511 | the loop ends at the first repeated text within four passes, with its composed provenance, or gives up |
| Redaction.RestExactly | netbox_rpc/event_store.py:495-511 | the text settles at the first of four passes that changes nothing, if one does |
| Redaction.ApplyStructural | netbox_rpc/event_store.py:529-541 | masking and the second fixed point give the described result |
| Redaction.RedactBounded | netbox_rpc/event_store.py:514-541 | the whole operation equals `RedactedResult` |
| Redaction.SecondFixedPoint | netbox_rpc/event_store.py:529-541 | with structural spans, the masked text is bounded and the result is where four further passes settle it, or the bare marker |
| Redaction.ResultIsStable | netbox_rpc/event_store.py:514-541 | every result is a whole vaulted reference, the bare marker, or a fixed point of bound after redact |
| Redaction.ResultIsBounded | netbox_rpc/event_store.py:514-541 | a bound on every bounded text bounds every result, although a pass can lengthen a text |
| Redaction.ResultOrigins | netbox_rpc/event_store.py:495-541 | the provenance of the result, composed over both fixed points and the masking, embeds it in the original text |
| Redaction.NothingComesBack | netbox_rpc/event_store.py:495-541 | no surviving character comes from a structural span, and each was kept by the first fixed point |
| Redaction.NoPassCoversIt | netbox_rpc/event_store.py:495-541 | wherever a surviving character stood before any pass of the first fixed point, no secret span found there held it, save as a leading byte-order mark |
| Redaction.NoSecretSurvives | netbox_rpc/event_store.py:514-541 | no surviving character lies in a secret span of the original text, save a byte-order mark, unless the first pass already leaves the text as it is |
| Redaction.SecretSurvivesExactly | netbox_rpc/event_store.py:514-541 | without structural spans that exception is exact: a secret character survives if and only if the first pass leaves the text as it is |
| Redaction.FoundMarkerSurvives | netbox_rpc/event_store.py:514-541 | a text where it does: the bare marker, found as a secret by a pattern |
| Redaction.NothingElseIsLost | netbox_rpc/event_store.py:514-541 | when the masked text is already stable, exactly the structural positions are lost |
| Insertions.OnlyMarkersAreInserted | netbox_rpc/event_store.py:495-541 | every character of a result without an origin is text of a redaction or truncation marker, and beside text of the original a redaction marker begins at its beginning and ends at its end |
| Insertions.OnePassIsWhole | netbox_rpc/event_store.py:514-541 | when one pass settles the text uncut, the result has exactly one whole marker for each secret span |
| Redaction.UntouchedIsResult | netbox_rpc/event_store.py:514-541 | a text that no pattern changes, within the bound, is its own result |
| Redaction.QuietResultIsFixed | netbox_rpc/event_store.py:514-541 | a result in which no structural span is found is redacted to itself |
| EventText.MessageFits | netbox_rpc/event_store.py:822-831 | every message fits 4096 characters |
| EventText.BackendNameFits | netbox_rpc/event_store.py:1372-1386 | every stored backend event name fits its 100-character column, prefix included |
| EventText.TextFits | netbox_rpc/event_store.py:596-608 | a redacted text is at most its limit and the truncation marker long, whole vaulted references included |
| EventText.LongTextIsCut | netbox_rpc/event_store.py:596-608 | a text that no pattern touches is stored as it is, or as its first `limit` characters and the truncation marker |
| EventText.LongMessageIsCut | netbox_rpc/event_store.py:822-831 | such a message above 4096 characters keeps its first 4082 and the marker |
| EventText.LongNameIsCut | netbox_rpc/event_store.py:1372-1386 | such a backend name keeps its first 91 characters behind the prefix |
| EventText.BoundsOnlyCut | netbox_rpc/event_store.py:596-608 | the three bounds give the text, a start of it, or a start of it and the truncation marker |
| EventText.MarkerIsCut | netbox_rpc/event_store.py:596-608 | a whole secret under a limit below ten leaves the start of the marker |
| MappingNames.FirstFreeIsFirst | netbox_rpc/event_store.py:689-701 | the suffix search finds the first free candidate within one more than the taken names |
| MappingNames.UnusedPlaceholder | netbox_rpc/event_store.py:689-701 | the loop returns that candidate, which is not taken |
| MappingNames.PlaceholdersDiffer | netbox_rpc/event_store.py:675-686 | names with different digests have different placeholders |
| MappingNames.PersistedNames | netbox_rpc/event_store.py:647-667 | the names are sorted, none lost or added, and the loop over them equals `Persisted` |
| MappingNames.PersistedInjective | netbox_rpc/event_store.py:647-667 | persisted names are pairwise distinct for any digest, non-secret names are kept, secret ones become placeholders |
| MappingNames.PersistedExactly | netbox_rpc/event_store.py:647-701 | each secret-bearing name gets the first candidate of its own placeholder that no plain name and no earlier placeholder uses |
| CredentialReference.RoundTrip | netbox_rpc/credential_contract.py:117-170 | reading a mapping and writing it back gives the same mapping |
| CredentialReference.ReadBack | netbox_rpc/credential_contract.py:117-170 | every valid reference is read back from its mapping |
| CredentialReference.AcceptedExactly | netbox_rpc/credential_contract.py:117-170 | a mapping is accepted exactly when it is that of a valid reference |
| CredentialReference.PublicMetadataIsValue | netbox_rpc/credential_contract.py:211-228 | the metadata that redaction lets through is the value it was given, under three names only |
| CredentialReference.PublicExactly | netbox_rpc/credential_contract.py:211-228 | exactly valid named references, digests and policy references are public, each under its own name |
| SensitiveKeys.PlaceholderInert | netbox_rpc/event_store.py:561-565 | a placeholder is never a sensitive or a policy key |
| SensitiveKeys.SensitiveSpreads | netbox_rpc/event_store.py:561-565 | whatever is written around a sensitive key, it stays sensitive unless it becomes a safe key |
| SensitiveKeys.CaseIsIgnored | netbox_rpc/event_store.py:561-565 | case matters neither for sensitive nor for safe keys |
| LedgerForm.KeptFacts | netbox_rpc/event_store.py:611-645 | which names a mapping keeps: all within the limit, the data entries of a bounded mapping, exactly the first hundred in insertion order otherwise |
| LedgerForm.KeptNamesAreSorted | netbox_rpc/event_store.py:647-667 | the kept names come in name order, the order in which placeholders are given out |
| LedgerWindow.EntryIsStored | netbox_rpc/event_store.py:611-645 | every entry of the window is stored, redacted on its own, under its name or a placeholder of that very name |
| LedgerWindow.PlainNameIsStoredExactly | netbox_rpc/event_store.py:611-645 | a plain name is in the stored mapping exactly when its entry is among the first hundred |
| LedgerWindow.TruncationIsMarked | netbox_rpc/event_store.py:611-645 | a mapping is marked as truncated when entries were dropped, and not otherwise |
| LedgerWindow.ListIsStored | netbox_rpc/event_store.py:711-763 | entry `i` of a stored list is the redacted entry `i` for the first fifty, and the marker counts the dropped ones |
| LedgerWindow.DepthIsBounded | netbox_rpc/event_store.py:781-810 | containers below the depth limit become the cut-off text, scalars stay, texts are redacted under the limit of their path |
| LedgerWindow.SensitiveIsKeptExactly | netbox_rpc/event_store.py:766-778 | under a sensitive key a value is stored as it is exactly when it is a boolean, public metadata, a vaulted reference or the marker |
| LedgerForm.RedactStores | netbox_rpc/event_store.py:611-810 | under rules that are steady at the limits they can yield, every redacted value is in stored form under the name and path it is persisted with |
| LedgerForm.StoredIsFixed | netbox_rpc/event_store.py:611-810 | redacting a value in stored form changes nothing, whatever order its mappings come back in |
| LedgerForm.RedactIsStable | netbox_rpc/event_store.py:781-810 | redacting twice, with different mapping orders, equals redacting once, for every JSON tree |
| LedgerForm.FieldsAreIndependent | netbox_rpc/event_store.py:611-645 | a field of a mapping of plain names is stored as it would be on its own |
| LedgerForm.SensitiveIsString | netbox_rpc/event_store.py:766-778 | a value under a sensitive key that is neither boolean nor public is stored as a string |
| NormalizedParams.LedgerRulesSteady | netbox_rpc/event_store.py:41-78 | the key rules, the metadata contract and the two limits meet what stability needs |
| NormalizedParams.NormalizedIsRedacted | netbox_rpc/event_store.py:893-903 | the normalized parameters are stored as the redaction of the whole mapping under its own name |
| NormalizedParams.NormalizedParamsStable | netbox_rpc/event_store.py:885-903 | the ledger form of normalized parameters is stable, so the request hash and the lease check see one form |
| NormalizedParams.StoredParamsAreStable | netbox_rpc/event_store.py:885-903 | the same for the modelled redactor and name check themselves, over any patterns that leave the literals and names of the ledger alone and redact idempotently |
| NormalizedParams.QuietLeafIsIdempotent | netbox_rpc/event_store.py:514-608 | patterns that find no structural span in a result redact idempotently under both limits |
| SchemaRelaxation.CollectLimits | netbox_rpc/event_store.py:1586-1612 | the walk registers exactly the paths of limits above the default, each with a limit declared there |
| SchemaRelaxation.StripIsExact | netbox_rpc/event_store.py:1615-1669 | strip removes exactly the collected limits if and only if no narrow limit shares a path with a wide one |
| SchemaRelaxation.NoClashIsExact | netbox_rpc/event_store.py:1586-1669 | without a property named `*` beside items, strip removes exactly the collected limits |
| SchemaRelaxation.StarPropertyLosesALimit | netbox_rpc/event_store.py:1615-1648 | a schema where that condition fails and a limit is lost |
| SchemaRelaxation.StripKeepsValid | netbox_rpc/event_store.py:1615-1669 | a valid value stays valid when limits are stripped |
| SchemaRelaxation.RelaxIsExact | netbox_rpc/event_store.py:1650-1669 | valid is the same as relaxed-valid and in bounds at the wide limits |
| SchemaRelaxation.RelaxedAndBoundedIsValid | netbox_rpc/event_store.py:1565-1669 | relaxed-valid, with bounded strings at the registered paths, is valid |
| LedgerBounds.TreeInBounds | netbox_rpc/event_store.py:611-810 | for every JSON tree, every string of its redacted form is within the long limit that the schema sets for it |
| LedgerBounds.StoredResultInBounds | netbox_rpc/event_store.py:1565-1583 | whatever the backend sends, the stored result is within the long limits, and the full schema accepts it exactly when the relaxed one does |
| LeafBounds.LedgerIsFrugal | netbox_rpc/event_store.py:596-608 | the modelled redactor, vaulted references and public metadata keep to the limits that this needs |
| EventLedger.DenseCount | netbox_rpc/event_store.py:834-840 | gap-free rows of an execution are numbered exactly from one to their count |
| EventLedger.OneWriter | netbox_rpc/models.py:1178-1184 | the unique constraint leaves at most one transaction per execution with rows of its own |
| EventLedger.StepKeepsInv | netbox_rpc/event_store.py:843-882 | every step of every worker keeps the invariant: no gap, own rows after the committed ones, no row held twice |
| EventLedger.SequencesAreContiguous | netbox_rpc/event_store.py:834-882 | in every state of every run, the sequences of an execution are exactly 1..n |
| EventLedger.RowsAreAppendOnly | netbox_rpc/models.py:1199-1214 | a committed event is never changed or removed later in the run |
| EventLedger.RaiseNeedsThreeOthers | netbox_rpc/event_store.py:843-882 | an append gives up only if at least three other events were committed to its execution during the call |
| EventHistory.LedgerIsTheLog | netbox_rpc/event_store.py:843-882 | in every state of every run the rows of an execution are exactly the events inserted by its committed transactions, each once, numbered in commit and insert order |
| EventHistory.InsertHolds | netbox_rpc/event_store.py:867-877 | an insert holds the event that was asked for at the sequence that was read last |
| EventHistory.PendingStays | netbox_rpc/event_store.py:867-877 | an inserted row stays in its transaction until that ends |
| EventHistory.CommittedForGood | netbox_rpc/event_store.py:843-882 | after the commit of its transaction an inserted row is in the ledger for good |
| EventHistory.RaisesAtTheThird | netbox_rpc/event_store.py:864-882 | a call gives up at its third collision and not before |
| EventHistory.AppendSucceeds | netbox_rpc/event_store.py:834-882 | without rivals a call reads, inserts and commits at once, and the event becomes the next row |
| EventHistory.LoneAppend | netbox_rpc/event_store.py:834-882 | the lone append to an empty ledger exists and leaves one row, number one |
| Projection.Execution.constructor | netbox_rpc/domain/projection.py:170-174 | a new execution has no records and the initial row, and is consistent |
| Projection.Execution.AppendAndProject | netbox_rpc/event_store.py:938-965 | the record is redacted, the row moves by the decoded record, and consistency is kept |
| Projection.Execution.Reproject | netbox_rpc/event_store.py:1700-1712 | replay makes the row the fold of the records, and writes only if the row was not that already |
| Projection.SameMeaning | netbox_rpc/domain/events.py:633-638 | the type that appended a record and the name that replays it move the projection alike |
| Projection.IncrementalIsReplay | netbox_rpc/event_store.py:938-975 | after every run of appends the live row equals the fold of the stored records |
| Projection.CallerFollowsReplayExactly | netbox_rpc/event_store.py:938-965 | projecting the caller's events would agree with replay after every prefix of a run exactly when redaction is invisible at each state the run reaches |
| Projection.MarkedTextIsNotReplayed | netbox_rpc/event_store.py:962-964 | a redacting domain in which one append already leaves the caller's text in the row where replay gives the marker |
| BackendResponse.Persistable | netbox_rpc/event_store.py:910-935 | for the fallback of either failure type, the stored code always has catalog shape, and a catalog code is kept |
| BackendResponse.AcceptedExactly | netbox_rpc/event_store.py:1321-1369 | a response with a result is accepted exactly when its envelope, the relaxed check of the raw result and the full check of the ledger form hold |
| BackendRecord.RecordItem | netbox_rpc/event_store.py:1372-1394 | one raw item is appended as its redacted, named progress record |
| BackendRecord.RecordProgress | netbox_rpc/event_store.py:1389-1394 | the loop appends exactly the records of the objects among the first fifty raw items |
| BackendRecord.RecordFailure | netbox_rpc/event_store.py:1397-1425 | the failure record is appended with its persistable code and its default message |
| BackendRecord.RecordTerminal | netbox_rpc/event_store.py:1397-1441 | exactly one terminal record is appended, the one that the rows of `BackendFailure` describe |
| BackendFailure.FailureExactly | netbox_rpc/event_store.py:1269-1283 | the record of a failure that is no mismatch holds the code, message and result of the backend, each in its field; only the code when there is nothing else |
| BackendFailure.CodeIsKept | netbox_rpc/event_store.py:1397-1425 | for a redactor that leaves catalog codes alone, a catalog code is stored as it is and any other becomes the fallback |
| BackendFailure.SuccessRecord | netbox_rpc/event_store.py:1397-1409 | the name, level, message and fields of the record of a success |
| BackendFailure.MismatchExactly | netbox_rpc/event_store.py:1410-1425 | the record of a mismatch holds its code and explanation, and no result |
| BackendFailure.StoredResultIsValid | netbox_rpc/event_store.py:1444-1498 | no result is stored unchecked: every result in a terminal record, of a success or a failure, passed the full schema |
| BackendRecord.RecordBackendResponse | netbox_rpc/event_store.py:1444-1498 | the ledger grows by the progress records and one terminal record, and the row stays the fold of the ledger |
| BackendLedger.ProgressFits | netbox_rpc/event_store.py:1372-1394 | at most fifty progress records, none for protected or code-only failures; names within 100 characters, messages within 4096, data redacted |
| BackendLedger.ProgressInOrder | netbox_rpc/event_store.py:1372-1394 | the progress records are those of the objects among the first fifty items, one each and in order, with level, name, message and data of the item |
| BackendLedger.OneTerminalRecord | netbox_rpc/event_store.py:1444-1498 | of all appended records only the last has the name of a terminal event, whatever names the backend chose |
| BackendRecord.MismatchStoresNothing | netbox_rpc/event_store.py:1397-1425 | the record of a mismatch is a failure without a result; its code is the mismatch code itself for every leaf redactor that leaves catalog codes alone, and otherwise its redaction |
| BackendRecord.FailureStores | netbox_rpc/event_store.py:1397-1425 | the record of a failure holds a catalog code, as it is for every leaf redactor that leaves catalog codes alone, and the ledger form of its result exactly when there is one |
| BackendResponse.EnvelopeHoldsExactly | netbox_rpc/event_store.py:1303-1318 | the envelope check passes exactly when the closed envelope of the contract holds |
| BackendResponse.ReasonApplies | netbox_rpc/event_store.py:1285-1369 | the reason that a mismatch is recorded with applies to the response |
| BackendResponse.SuccessIsEarned | netbox_rpc/event_store.py:1321-1498 | success is recorded exactly when the claim, the envelope, the relaxed check and the full check all hold; for closed envelopes both `ok` flags are strictly true |
| BackendRecord.StoredAsChecked | netbox_rpc/event_store.py:1428-1441 | the result in the success record is the very value that passed the full schema |
| BackendResponse.SensitiveFieldBlocksSuccess | netbox_rpc/event_store.py:1321-1369 | a required non-string under a sensitive key makes success impossible |
| Templating.ErrorsExactly | netbox_rpc/command_templating.py:189-280 | the analysis is free of errors exactly when no node at any depth is forbidden |
| Templating.AcceptsExactly | netbox_rpc/command_templating.py:189-360 | a token is accepted exactly when it is not empty, its literals are safe, no node is forbidden and every access is declared |
| Templating.WalkFindsRefs | netbox_rpc/command_templating.py:189-280 | the flat walk finds exactly the references of the recursive analysis, in order |
| Templating.WalkRefs | netbox_rpc/command_templating.py:189-280 | the two reference passes, accesses first, collect exactly those references |
| Templating.AcceptedIsNonInterfering | netbox_rpc/command_templating.py:283-360 | an accepted token renders alike in any two contexts that agree on what it may see, dictionary methods included |
| Templating.AcceptedIsTame | netbox_rpc/command_templating.py:189-360 | an accepted token has no call, no unlisted filter, no private key and no unsafe literal, at any depth |
| CommandChain.ChainErrors | netbox_rpc/models.py:684-739 | the loop reports no error exactly when no sibling would lose a variable, and blames only templated siblings |
| CommandChain.SaveKeepsSound | netbox_rpc/models.py:558-739 | an accepted save keeps the procedure that the row ends up in closed, with unique output names |
| CommandChain.AcceptedExactly | netbox_rpc/models.py:558-739 | in a sound procedure a row is accepted exactly when its own parts are legal, its tokens read what earlier rows produce, and the procedure stays sound with it |
| CommandChain.SaveKeepsOthers | netbox_rpc/models.py:673-682 | a procedure the row neither was in nor ends up in is not affected |
| CommandChain.MoveKeepsOldExactly | netbox_rpc/models.py:558-739 | a move keeps the old procedure sound if and only if nothing left there needs the row's variable |
| CommandChain.RunKeepsSound | netbox_rpc/models.py:558-739 | from an empty table, after every run of accepted saves without such a move, every procedure is sound |
| CommandChain.NoUnboundLookup | netbox_rpc/command_templating.py:283-440 | evaluated in order, every access under `vars` in a sound procedure is bound; it gives what its one earlier producer captured, except exactly for an attribute access whose name is a dictionary method |
| CommandChain.AttributeReadsExactly | netbox_rpc/command_templating.py:370-403 | for every name the checks allow, a run of two accepted creates in which `vars.x` gives the captured output if and only if dictionaries have no method of that name |
| CommandChain.ItemsReadsTheMethod | netbox_rpc/command_templating.py:113-119 | such a run with the name `items`, where the consumer gets the method |
| CommandChain.MovingAProducerBreaksTheChain | netbox_rpc/forms.py:192-200 | for every variable name: two accepted creates and then an accepted edit that moves the producer away and leaves its consumer behind |
| DispatchLease.CurrentIsLast | netbox_rpc/credential_authority.py:495-516 | current claims are proved by the last event, directly after the normalized parameters |
| DispatchLease.CurrentExactly | netbox_rpc/credential_authority.py:495-516 | claims are current exactly when the ledger ends in the normalized parameters and the first issue of the nonce, whose data repeats the claims field by field |
| DispatchLease.OneCurrentLease | netbox_rpc/credential_authority.py:495-516 | in every ledger state at most one set of claims, and so one nonce, is current |
| DispatchLease.NeverCurrentAgain | netbox_rpc/credential_authority.py:495-516 | once any event follows, that nonce never passes again, even if a later event issues it again |
| DispatchLease.OneWindowPerNonce | netbox_rpc/credential_authority.py:468-479 | two authorizations under one nonce saw the same ledger and claims, less than five minutes apart, whatever issued times their leases state |
| ClosedResult.BuiltIsValid | netbox_rpc/jobs.py:1459-1538 | an object built from a row that meets the checks and one state is valid, and reads back as the row |
| ClosedResult.OnlyState | netbox_rpc/gitea_runner_contract.py:265-383 | with exclusive states, a row that meets one meets no other |
| TransportOutcome.StatesAreExclusive | netbox_rpc/gitea_org_ci_runner_contract.py:588-699 | the alternatives of each of the four result schemas exclude each other for every object |
| TransportOutcome.RunnerFailureFits | netbox_rpc/jobs.py:1459-1538 | a runner failure, for arbitrary request values, meets every property and one alternative |
| TransportOutcome.OrgFailureFits | netbox_rpc/jobs.py:1587-1665 | the same for the organisation runner, whose operation, lane, scope, fence and digest may be anything |
| TransportOutcome.FailureIsClosed | netbox_rpc/jobs.py:667-706 | every closed failure is not ok and is a valid result in exactly one state |
| TransportOutcome.OutcomeIsClosed | netbox_rpc/jobs.py:1008-1049 | however an exchange ends, the result is valid and its flag is the outcome's |
| TransportAnswer.OutcomeExactly | netbox_rpc/jobs.py:828-904 | an exact answer with a matching status is the outcome, failures included; a connect timeout gives the failure before the start and every other end the indeterminate one |
| TransportAnswer.OutcomeReports | netbox_rpc/jobs.py:1396-1710 | the fields of those two failures for each kind: what was not done, or is unknown, the stage, and whether a token must be reset |
| TransportOutcome.SuccessExactly | netbox_rpc/jobs.py:828-904 | the outcome is ok exactly for a 2xx status with the exact five-key envelope that answers the request, and then the result is passed on unchanged |
| TransportOutcome.UnknownStaysUnknown | netbox_rpc/jobs.py:709-825 | except for a connect timeout, an exchange ends in the accepted answer to its request, or its result claims nothing: indeterminate, registration unknown, reset required |
| TransportOutcome.OutcomeAnswers | netbox_rpc/jobs.py:1008-1049 | however the exchange ends, the outcome of a request with legal values answers that request |
| TransportOutcome.FailureAnswersExactly | netbox_rpc/jobs.py:1396-1710 | a built failure passes the binding check of its own request if and only if the request's values are legal |
| OutcomeLedger.PriorIsSensitive | netbox_rpc/event_store.py:561-565 | the identifier of the earlier token is a sensitive key |
| ClosedLedger.LedgerFormIsInvalid | netbox_rpc/event_store.py:1428-1441 | no valid result with a numeric identifier under that key is still valid in its ledger form |
| ClosedLedger.KeptIsAccepted | netbox_rpc/event_store.py:1285-1369 | a closed outcome whose texts redaction keeps is accepted exactly when its envelope is |
| OutcomeLedger.StoredExactly | netbox_rpc/event_store.py:1285-1369 | over all four kinds and however the exchange ends, the outcome is stored exactly for upgrades and for DNS deployments of a legal commit |
| OutcomeLedger.OutcomeIsRecorded | netbox_rpc/event_store.py:1444-1498 | the terminal record then holds the ledger form of the result under the name its flag calls for, and otherwise is a failure without a result |
| ClosedLedger.ClosedRecord | netbox_rpc/event_store.py:1397-1498 | for any closed outcome, accepted means its result is in the record and refused means no result is |
| BoundedReader.Extend | netbox_rpc/jobs.py:249-253 | the chunk is appended inside a buffer no larger than the limit |
| BoundedReader.Wipe | netbox_rpc/jobs.py:274-276 | every byte of the buffer is zero afterwards |
| BoundedReader.Fill | netbox_rpc/jobs.py:234-264 | the reading loop leaves in the buffer what `ReadRest` says |
| BoundedReader.ReadBounded | netbox_rpc/jobs.py:207-276 | the read equals `ReadAll`, and the buffer is wiped on every exit, errors included |
| BoundedReader.UndeclaredExactly | netbox_rpc/jobs.py:237-272 | without a declared length the verdict is that on the whole stream if and only if no empty chunk at the limit hides later bytes |
| BoundedReader.DeclaredExactly | netbox_rpc/jobs.py:237-272 | for any chunk sizes, a declared length gives a body exactly when a chunk boundary falls there, and then it is the first bytes of the stream |
| BoundedReader.SmallChunksReach | netbox_rpc/jobs.py:221-253 | byte by byte there is a boundary at every length that the stream reaches |
| BoundedReader.BodyIsAPrefix | netbox_rpc/jobs.py:237-273 | for any chunk sizes and deadline, a body is a non-empty start of the stream, within the limit and as long as declared |
| BoundedReader.BodyIsWhatWasRead | netbox_rpc/jobs.py:237-273 | a body is exactly the bytes of the chunks that were read |
| BoundedReader.NotBytesIsRefused | netbox_rpc/jobs.py:243-248 | a chunk that is not bytes ends the read when the read gets to it |
| BoundedReader.LateExactly | netbox_rpc/jobs.py:234-264 | byte by byte, the deadline is missed exactly when the budget ends before the stream, the limit and the declared length |
| BoundedReader.OneByteReadsAreExact | netbox_rpc/jobs.py:221-273 | byte by byte and within the deadline, the outcome is a function of the stream alone |
| BoundedReader.EmptyChunkHidesTheRest | netbox_rpc/jobs.py:254-264 | a stream of two bytes accepted as one |
| ApproveScope.StepKeepsInv | netbox_rpc/forms.py:85-101 | under the lock every step keeps: only the holder is at work, and its reads are still true |
| ApproveScope.CommitNeverWidens | netbox_rpc/current_access.py:55-82 | in every interleaving, for any approve relation, a committed edit whose read is still fresh adds nothing to what its editor may approve |
| ApproveScope.CommitKeepsWhatWasRead | netbox_rpc/current_access.py:55-82 | at every commit of every interleaving, stale reads included: as checked, the edit added nothing to the editor's scope as read, and until the commit the table changed by created procedures only |
| ApproveScope.LockIsHeldOrFree | netbox_rpc/current_access.py:38-52 | in every state the lock is free or held by an edit at work, and a commit or abort of the holder frees it |
| ApproveScope.WithoutTheLockTwoEditsWiden | netbox_rpc/current_access.py:38-52 | a run without the lock in which two edits widen the scope together |
| ApproveScope.CreateBeforeCommitWidens | netbox_rpc/forms.py:85-87 | for any table, created procedure and edit that changes its row: a locked run with that creation between check and commit widens the scope, for some approve relation |
| ApproveScope.CreateBeforeCheckWidens | netbox_rpc/forms.py:85-101 | the same for a creation between the read and the check |

## Left out

- What the secret patterns recognise: the finders are arbitrary, so the model says what happens to a span, not which spans exist.
- Full idempotence of the bounded redaction: structural spans are computed once on the original text, so the code does not promise it; `NormalizedParams.QuietLeafIsIdempotent` gives a condition that suffices.
- Containers that JSON does not have (tuples, sets), and the `repr` order of sets.
- Lower-casing beyond ASCII, and whitespace beyond the ASCII set in `strip`.
- Schema keywords that reach into a relaxed subtree from elsewhere (`$ref`, `unevaluatedProperties`), a non-integer `maxLength`, and an invalid schema.
- NormalizedParams.StoredParamsAreStable: the patterns are assumed to redact idempotently and to leave the literals and names of the ledger alone; `NormalizedParams.NormalizedParamsStable` asks the same of an arbitrary leaf redactor.
- Projection.IncrementalIsReplay: covers events appended through `_append_and_project` only; `jobs._event` appends without projecting.
- Projection.Execution.AppendAndProject: the failure code is made persistable before this step, in `BackendResponse.Persistable`.
- CommandChain.RunKeepsSound: covers creates and edits; deleting a command or changing the parameter schema is not checked by the code and not modelled.
- CommandChain.NoUnboundLookup: every producer is assumed to run and to capture something; a skipped or failed producer, and concurrent saves of commands, are not modelled.
- Templating.AcceptedIsNonInterfering: the address of an object in the text of a bound method is not modelled.
- ApproveScope.CommitNeverWidens: asks that no procedure was created between the read and the commit, because creation takes no lock; the two counterexample families beside it show why, and `ApproveScope.CommitKeepsWhatWasRead` says what holds without it. Deleting procedures, changing grants and unsaved forms are not modelled.
- DispatchLease.OneWindowPerNonce: the signature, the approval hash and the actor checks are separate conditions and not modelled.
- The Akvorado, Docker-runner, worker and protected-publication transports, and the generic transport, which have other envelopes or none.
- TransportOutcome.SuccessExactly: header parsing, JSON decoding and the wall-clock timer are outcomes of the exchange, not modelled steps.
- BackendRecord.FailureStores: that the code is stored as it is, is promised for leaf redactors that leave catalog codes alone; what the patterns recognise is open.
- OutcomeLedger.StoredExactly: assumes a leaf redactor that keeps the contract's fixed words and a requested commit, result names that are not themselves secret-bearing texts, and the source's own key rules.
- BoundedReader.ReadBounded: the deadline is a number of reads that meet it; content encoding and the header's own syntax are not modelled.
- Hashing, signatures, sockets, the web views and the catalog of procedures.
