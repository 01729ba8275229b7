# Verification of the field forest, calendar, metadata sync, MERGE sync, pricing, OTP and export columns

A Dafny 4.11 model of the parts of the service that decide something hard, with proofs. `dafny verify dfyconfig.toml`
checks the whole project.

A database table is a map or a sequence of rows. A commit is a step that either succeeds with every constraint holding
or leaves the store as it was. Where the code works step by step, a class with the same fields has methods with the same
loops; each method is proved against a specification function, and the promises are lemmas about those functions and
about every run of them.

**Forms** (`FormStore`, `FormSync`, `FormSyncTheory`, `FormSyncRuns`, `FormSyncKeys`, `FormSyncOutcome`, `FormSyncRows`,
`FormOps`, `FormOpsTheory`, `FormRequests`, `FormFieldService`, `FormMapper`, `FormMapperTheory`). Fields refer to a
parent field of the same form. Create, update, delete and a recursive synchroniser edit them; a bucket index renders
them back into a tree. The session is configured not to flush before queries (`app/common/database.py:38-43`), so rows
marked for deletion stay in the way of the unique index, and of the look-ups, until the next flush: sessions keep live
and doomed rows apart. For the same reason an update that moves a field to another form and gives an empty list of
nested fields removes none of them.

**Calendar** (`Calendars`, `JalaliDatetime`, `Strings`, `JalaliText`, `JalaliEarly`, `JalaliTimestamps`,
`JalaliShapes`). Two independent mixed-radix algorithms are measured against day numbers counted year by year and month
by month; Gregorian dates follow section 3.2.1 of ISO 8601:2004. The conversions are inverse from 1601 on; up to 1600
they are not always, because the formatter counts leap years there from other years than the calendars do, and
`JalaliEarly` says exactly for which dates they are. The validators accept decimal digits of every script, as the
pattern `\d` does. Texts compare by code point.

**Metadata** (`Metadata`, `PayloadViews`, `SnapshotHash`, `MetadataSync`, `MetadataSyncTheory`, `MetadataView`,
`MetadataCounters`, `MetadataChanges`, `MetadataOutcome`, `MetadataRepeat`, `MetadataAppLabels`, `MetadataRuns`,
`MetadataRecords`, `MetadataService`). A reconciler with hash shortcuts, soft deletes and counters. A hash is modelled
by exactly what is hashed. The entity hash takes the app label from the model label, so the app label of the listing app
can go stale; `AppLabelAfterSync` says exactly when, and `LastAppLabelNotShown` gives a run.

**SQL Server** (`SqlServer`, `MergePlan`, `MergeTheory`, `MergeEffect`, `MergeOutcome`, `MergeExecutor`). The generated
MERGE is a syntax tree with an interpreter in three-valued logic. Collations are parameters: a column's own for its key
and ordinary comparisons, the database default where the statement says so.

**Pricing and purchases** (`PricingTree`, `PricingSummary`, `PricingTheory`, `PricingOrder`, `Purchases`,
`PurchaseTheory`, `PurchaseOutcome`, `PurchaseRuns`, `PurchaseConfigs`, `PurchasePricing`, `PurchaseService`). Three
accumulators over the same rows: tree, summary and stored purchase.

**One-time passwords** (`Otp`, `OtpAnswers`, `OtpService`). A request reads three clocks: one for the limit, one for the
expiry and the database's own for the row. On PostgreSQL the last is the start of the transaction and can precede the
first, so the limit is stated with that lag, with a run that exceeds it and the exact condition under which it holds.

**Export columns** (`ExportColumns`, `ExportBuffer`). Column names are made distinct by suffixes; rows are laid out
under the final header.

`Prelude`, `Ordering` and `Strings` hold what several parts share.

## Model

| member | source | states |
|---|---|---|
| FormSyncTheory.SyncChildrenCorrect | app/modules/forms/service.py:205-258 | Whenever synchronising a payload tree under a container goes through, the container's subtree has exactly the payload's keys, nesting and supplied values (position as default order; among siblings with one key the last counts), every row outside the subtree is the same row, and the table is still a forest |
| FormSyncOutcome.SyncSucceedsIff | app/modules/forms/service.py:205-258 | For every payload that sets every NOT NULL column and whose siblings have distinct keys, synchronising goes through exactly when no key occurs twice anywhere in the payload and no row of the form is in the way of a payload key, which is read off the table before the call: in the way are rows outside the subtree, under a child named later or not at all, or under the child named just before and still waiting to be deleted |
| FormSyncOutcome.SyncOutcome | app/modules/forms/service.py:222-258 | When a payload with distinct keys goes through, every row whose key it does not name is the same live row if it was outside the subtree; inside it the row is no longer live, and is still waiting to be deleted exactly when no flush came after its container was done |
| FormSyncRows.SyncHandsDown | app/modules/forms/service.py:222-251 | Whenever a payload without repeated sibling keys goes through, at every depth a node whose key a child of its container had is in that child's row, with the columns it does not supply as they were, and any other node is in a new row with the defaults of the columns it does not supply |
| FormSyncOutcome.KeyHeldLaterFails | app/modules/forms/service.py:222-258 | A payload key that a row of the subtree holds under a child named later or not named at all fails the synchronisation, since that row is still live when the key is written |
| FormSyncOutcome.KeyHeldEarlier | app/modules/forms/service.py:244-258 | A row under a child named earlier is in the way only of the key of the very next node, and only while it waits to be deleted |
| FormSyncOutcome.SyncChildrenSucceeds | app/modules/forms/service.py:205-258 | A payload with keys all different, each unused in the form or already under the same parent, that sets every NOT NULL column, synchronises without an error |
| FormSyncRuns.KeyHeldOutsideFails | app/modules/forms/service.py:222-244 | A key of the payload, at any depth, that a row outside the container's subtree holds in the form fails the whole synchronisation on the unique index |
| FormSyncRuns.SyncAgain | app/modules/forms/service.py:212-258 | On a subtree that already is the payload, synchronising changes nothing: same rows, same ids |
| FormSyncRuns.SyncUses | app/modules/forms/service.py:225-258 | Synchronising brings no key into a form but the payload's |
| FormFieldService.FormDatabase.SyncChildren | app/modules/forms/service.py:205-258 | The recursive method with its loop over the payload computes the specified session, or reports the constraint violation |
| FormFieldService.FormDatabase.DoomAll | app/modules/forms/service.py:252-258 | Deleting the obsolete children marks them and everything under them, and nothing else |
| FormFieldService.FormDatabase.ValidateParentAssignment | app/modules/forms/service.py:176-203 | The walk over the ancestors ends and refuses a parent exactly when it is missing, in another form, or the field itself or one of its descendants |
| FormStore.AcyclicIffNoCycle | app/modules/forms/service.py:195-203 | Parent chains have a decreasing rank exactly when no field is its own descendant |
| FormOpsTheory.OwnSubtreeRefused | app/modules/forms/service.py:176-203 | Within its form a field can never be put under itself or one of its descendants |
| FormOpsTheory.CreateFieldCorrect | app/modules/forms/service.py:405-433 | A committed create leaves every existing row alone and adds the field in the form and under the parent asked for, with the values supplied, its own order or 0, and the defaults of the columns not supplied; exactly the nested payload hangs under it, and the store stays valid |
| FormOpsTheory.UpdateFieldCorrect | app/modules/forms/service.py:435-462 | A committed update gives the field what the patch sets, clears a parent set to null, and keeps the rest; a new form goes to exactly the field and its descendants; no other row changes, and the store stays valid |
| FormOpsTheory.UpdateWithCorrect | app/modules/forms/service.py:435-476 | The field is rewritten in the same way; an empty list of nested fields removes exactly the descendants when the form stays; when the form changes too, the descendants are still moved and none is removed; a non-empty list never commits |
| FormOpsTheory.MovedTree | app/modules/forms/service.py:519-535 | Moving a field with its whole subtree under a parent outside that subtree leaves a forest |
| FormFieldService.FormDatabase.MoveSubtreeToForm | app/modules/forms/service.py:519-535 | The recursion over the children ends and changes the form of exactly the descendants |
| FormOpsTheory.DeleteFieldCorrect | app/modules/forms/service.py:478-481 | Deleting a field removes the field and its descendants and nothing else, and keeps the store valid |
| FormOpsTheory.DeleteFormCorrect | app/modules/forms/service.py:370-373 | Deleting a form removes its head and exactly its fields, leaves every other form and field as it was, and keeps the store valid |
| FormOpsTheory.SaveFormCorrect | app/modules/forms/service.py:351-368 | Saving a form head changes that head only and keeps the store valid |
| FormOpsTheory.SaveFormIff | app/modules/forms/service.py:351-368 | A head is saved exactly when it has a scope value just where its scope needs one and no other stored form has its key, scope and version |
| FormOpsTheory.CreateFormCorrect | app/modules/forms/service.py:351-359 | A new form takes an id no form has; it is created exactly when its head may be saved, and nothing else changes |
| FormOpsTheory.UpsertFormCorrect | app/modules/forms/service.py:564-590 | A seed goes to the one stored form with its key, scope and version, or to a new one; that form has the seed's head and exactly the seed's field tree; every other head and the fields of every other form are the same |
| FormRequests.CreateFieldIff | app/modules/forms/service.py:405-433 | A create whose payload repeats no key among siblings commits exactly when the form exists, the parent is none or a field of the form, no key occurs twice in the payload and the form uses none of them; otherwise the error is the one of the first check that fails |
| FormRequests.UpdateFieldIff | app/modules/forms/service.py:435-462 | An update commits exactly when the row it asks for has a known form, a parent of that form outside the field's own subtree, its NOT NULL columns and a key free in that form, the descendants' keys being free there too when the form changes; otherwise the error is the one of the first check that fails |
| FormRequests.UpdateWithIff | app/modules/forms/service.py:435-476 | What an update says about nested fields refuses it only when the list is not empty |
| FormRequests.DeletesIff | app/modules/forms/service.py:370-481 | A field or a form is deleted exactly when it exists |
| FormRequests.UpsertFormIff | app/modules/forms/service.py:564-590 | A seed is applied exactly when its head is admissible, no key occurs twice in its fields and no row of the form is in the way of one of them |
| FormRequests.ApplySeedsCorrect | app/modules/forms/service.py:553-562 | Seeds for different forms, applied together, each leave a form with their head and exactly their field tree |
| FormRequests.SeedsKeepOthers | app/modules/forms/service.py:553-562 | A form that no seed in the list is for keeps its head and exactly its fields |
| FormOpsTheory.PerformKeepsValid | app/modules/forms/service.py:351-590 | Every request keeps the store valid |
| FormOpsTheory.EveryReachableStoreIsAForest | app/modules/forms/service.py:351-590 | After any run of requests every parent exists in the same form, no field is its own descendant, (form, key) is unique and every form head is admissible |
| FormFieldService.FormDatabase.Create | app/modules/forms/service.py:405-433 | Create commits what is specified, or reports the error and leaves the tables as they were |
| FormFieldService.FormDatabase.Update | app/modules/forms/service.py:435-476 | Update commits what is specified, or reports the error and leaves the tables as they were |
| FormFieldService.FormDatabase.Delete | app/modules/forms/service.py:478-481 | Delete commits what is specified, or reports the error and leaves the tables as they were |
| FormFieldService.FormDatabase.UpsertSeed | app/modules/forms/service.py:564-590 | One seed: the matching form or a new one, then its field tree |
| FormFieldService.FormDatabase.ApplySeedDefinitions | app/modules/forms/service.py:553-562 | All seeds in one commit: an error anywhere leaves the tables as they were |
| FormMapper.BuildFieldBucket | app/modules/forms/mappers.py:45-53 | The loop groups the sorted fields by parent: every entry is the rows of that parent in order |
| FormMapperTheory.RenderingEnds | app/modules/forms/mappers.py:55-82 | Because the table is a forest, rendering from the bucket terminates |
| FormMapperTheory.FlattenRender | app/modules/forms/mappers.py:55-82 | A rendered field holds its own row and each row of its subtree once |
| FormMapperTheory.RenderFormCorrect | app/modules/forms/mappers.py:8-32 | Flattening a rendered form gives a permutation of the form's rows, each under its own parent, siblings ordered by (order_index, id) |
| FormMapperTheory.RenderReadsPayload | app/modules/forms/mappers.py:8-82 | Round trip: after a synchronisation whose siblings have distinct keys and rising order, rendering gives the payload back node for node |
| JalaliDatetime.GregorianToJalaliKeepsDay | app/common/formatters/jalali_datetime.py:36-67 | For every valid Gregorian date after 1600 the result is a valid Jalali date of the same day, days counted year by year and month by month |
| JalaliDatetime.JalaliToGregorianKeepsDay | app/common/formatters/jalali_datetime.py:70-121 | For every Jalali year from 1 on, any month and any day number from 1, the result is a valid Gregorian date of that day |
| JalaliDatetime.GregorianRoundTrip | app/common/formatters/jalali_datetime.py:36-121 | After 1600, Gregorian to Jalali and back is the identity |
| JalaliDatetime.JalaliRoundTrip | app/common/formatters/jalali_datetime.py:36-121 | From Jalali date 979-10-12 on, Jalali to Gregorian and back is the identity |
| JalaliDatetime.After1600 | app/common/formatters/jalali_datetime.py:70-121 | A Jalali date converts to a year after 1600 exactly when it is 979-10-12 or later |
| JalaliDatetime.ConvertsToSameDay | app/common/formatters/jalali_datetime.py:70-121 | Whatever the Jalali fields, they convert to a Gregorian date exactly when both count the same day |
| JalaliEarly.GregorianRoundTripIff | app/common/formatters/jalali_datetime.py:36-121 | For every Gregorian date, to Jalali and back is the identity exactly when its year is after 1600 or the Gregorian leap days of the 621 years before it are 150 or 151, as the place in the 33-year cycle requires of the Jalali year the date itself falls in |
| JalaliEarly.JalaliRoundTripIff | app/common/formatters/jalali_datetime.py:36-121 | For every Jalali date, to Gregorian and back is the identity exactly when it is a date of the calendar rule after 1600, or up to 1600, from day 366 on, a date of the cycle counted from year 0 whose own year and month give agreeing leap days |
| JalaliEarly.GregorianThreshold | app/common/formatters/jalali_datetime.py:36-121 | From a year on the Gregorian round trip always holds exactly when that year is after 1600 |
| JalaliEarly.JalaliThreshold | app/common/formatters/jalali_datetime.py:36-121 | From a Jalali date on the round trip always holds exactly when that date is 979-10-12 or later |
| JalaliEarly.NotOneToOneIn1600 | app/common/formatters/jalali_datetime.py:41-53 | 1600-02-29 and 1600-03-01 fall on one Jalali date |
| JalaliEarly.LastDayOf1600 | app/common/formatters/jalali_datetime.py:36-121 | 979-10-11 is a date of the calendar rule, names 1600-12-31, and does not come back |
| JalaliEarly.ValidatorAccepts | app/common/validators/jalali_datetime.py:34-92 | For every text, year 0000 included, the validator accepts exactly those of date shape whose fields follow the rule of their side of 1600, up to Python's last day |
| JalaliDatetime.MonthWalkCorrect | app/common/formatters/jalali_datetime.py:117-120 | The walk over the months ends in a month of the year, on a day of that month, and keeps the day number |
| JalaliDatetime.ConvertGregorianToJalali | app/common/formatters/jalali_datetime.py:36-67 | The steps as they run compute the specified date, which after 1600 names the same day |
| JalaliDatetime.ConvertJalaliToGregorian | app/common/formatters/jalali_datetime.py:70-121 | The steps and the month loop as they run compute the specified date, valid and of the same day |
| JalaliText.RoundTripIsCalendarRule | app/common/validators/jalali_datetime.py:75-92 | From 979-10-12 on the round-trip test accepts exactly the dates of the 33-year rule, up to the last day Python represents |
| JalaliText.ValidatorIsCalendarRule | app/common/validators/jalali_datetime.py:34-37 | For every text of date shape from 979-10-12 on, the validator accepts exactly by the explicit calendar rule |
| JalaliText.ValidatorOutputIsFixed | app/common/validators/jalali_datetime.py:34-37 | Whatever text is accepted, the output is a fixed point of the validator and parses to the same date |
| JalaliText.ConvertsWhenAccepted | app/common/validators/jalali_datetime.py:65-68 | A text converts to a Gregorian date exactly when the validator accepts it |
| JalaliText.AcceptedTextPrintsBack | app/common/validators/jalali_datetime.py:65-68 | The normal form of an accepted text is the printed form of the date it converts to |
| JalaliText.PrintedDateParsesBack | app/common/formatters/jalali_datetime.py:15-17 | For Gregorian years 1601 to 9999 the printed date passes the validator unchanged and converts back to the date |
| JalaliText.TextOrderIsDateOrder | app/common/formatters/jalali_datetime.py:15-17 | Printed dates compare as texts exactly as the dates compare in time |
| JalaliTimestamps.TimestampOutputIsFixed | app/common/validators/jalali_datetime.py:40-62 | Whatever timestamp text is accepted, with fraction and zone in any script of digits, the output is a fixed point of the validator |
| JalaliShapes.TimestampAccepts | app/common/validators/jalali_datetime.py:40-62 | A text is accepted exactly when, stripped, it is a date and a time with a space or a T between them, an optional fraction and an optional zone, its date is one the date validator accepts and its time is one of the day; the output is that date and time |
| Strings.WhiteSpace | app/common/validators/jalali_datetime.py:34-42 | The white space that is stripped from a text is the 29 characters Python counts as such |
| JalaliShapes.PersianDigits | app/common/validators/jalali_datetime.py:24-31 | Persian and Arabic digits count as digits, with their values |
| JalaliTimestamps.TimestampDateIsItsDate | app/common/validators/jalali_datetime.py:71-73 | A timestamp converts exactly when it is accepted, to the date its first ten characters convert to |
| JalaliTimestamps.PrintedTimestampParsesBack | app/common/formatters/jalali_datetime.py:20-24 | For years 1601 to 9999 the printed timestamp passes the validator unchanged and converts back to its date |
| JalaliTimestamps.TimestampTextOrder | app/common/formatters/jalali_datetime.py:20-24 | Printed timestamps compare as texts exactly as the moments compare in time |
| JalaliTimestamps.NextDayIsNext | app/modules/service_catalog/service.py:91-92 | The day after a date is a valid date one day later |
| JalaliTimestamps.RangeIsWholeDays | app/modules/service_catalog/service.py:874-877 | From the first day's start to before the day after the last selects exactly the rows whose date lies between the two days inclusive |
| JalaliTimestamps.SnapshotFilterIsTextRange | app/modules/service_catalog/service.py:874-877 | Whatever dates the filter texts name, the list selects exactly the rows whose printed Jalali date lies, as text, between them in normal form, ends included |
| JalaliTimestamps.SnapshotFilterFails | app/modules/service_catalog/controller.py:79-94 | The filter fails exactly when a stripped text is accepted by neither validator or the range ends on 9378-10-10, the name of 9999-12-31 |
| SnapshotHash.HashForgetsOrderOnly | app/metadata/utils.py:24-45 | With distinct names at each level, two snapshots have one canonical form exactly when they are the same up to the order of apps, models and fields |
| SnapshotHash.ComputeSnapshotHash | app/metadata/utils.py:24-45 | The nested loops build the specified canonical form |
| MetadataSyncTheory.TracksEntity | app/metadata/repository.py:167-209 | Upserting an entity, whichever branch runs, keeps the tables valid, the lookup map exact, the row as listed, and every other row as it was |
| MetadataSyncTheory.TracksField | app/metadata/repository.py:211-272 | Upserting a field keeps the tables valid, the lookup map exact, the row as listed, and every other row as it was |
| MetadataSyncTheory.TracksModels | app/metadata/service.py:142-183 | The whole pass keeps that invariant for the view of the models met so far, for any payload and any earlier tables |
| MetadataView.FullSyncShowsPayload | app/metadata/service.py:125-195 | After a synchronisation the active fields of the active entities are exactly the payload's, whatever the tables held before, and every other source shows what it showed |
| MetadataView.OtherSourcesKept | app/metadata/service.py:125-195 | Synchronising one source changes nothing another source shows |
| MetadataCounters.SummaryCountsView | app/metadata/query_service.py:30-49 | The summary's two counts are the sizes of the view: models, and (model, field) pairs |
| MetadataOutcome.CountersExact | app/metadata/service.py:132-195 | Seen counts the payload's items; created counts labels and (label, field) pairs without a row; deactivated counts the active labels missing from the payload and the active fields of its models it does not name; for unambiguous payloads updated counts known rows that are inactive or differ |
| MetadataOutcome.CountersBalance | app/metadata/service.py:132-195 | For an unambiguous payload created + updated + unchanged = seen, for entities and for fields, and the summary counts afterwards equal the counts seen |
| MetadataRepeat.SyncWhenShown | app/metadata/service.py:125-195 | A payload that is shown already changes no row and counts nothing but what is seen |
| MetadataRepeat.SyncAgain | app/metadata/service.py:125-195 | Synchronising the same unambiguous payload twice leaves every row and id as after the first time, with zero counters |
| MetadataAppLabels.AppLabelAfterSync | app/metadata/utils.py:48-67 | A model shows the app label of the payload, unless the source already showed it with the same attributes; then it keeps the app label it showed |
| MetadataAppLabels.MovedModelIsStale | app/metadata/utils.py:48-67 | A model listed under one app and then, unchanged, under another still shows the first after two successful synchronisations |
| MetadataAppLabels.SyncKeepsLabels | app/metadata/utils.py:48-67 | If every app label is a function of the model label, active rows always carry it |
| PayloadViews.ViewContents | app/metadata/service.py:142-183 | The view of an unambiguous payload shows every model and every field as listed |
| PayloadViews.ViewSize | app/metadata/service.py:142-183 | Every listed model and field of an unambiguous payload counts once |
| PayloadViews.ModelsListed | app/metadata/service.py:142-183 | The models to synchronise are exactly the models of all apps of the payload, each under its app's label |
| PayloadViews.PayloadShown | app/metadata/service.py:142-183 | The view of a payload that names no model label and no field twice shows every model of every app, each attribute as listed but the help text without the white space around it or not at all when that leaves nothing, and no other label |
| MetadataRuns.SynchronizeShows | app/metadata/service.py:37-123 | One synchronisation changes what its own source shows, and only if it succeeds |
| MetadataRuns.RolledBackValid | app/metadata/service.py:75-107 | An exception anywhere in the pass, between two models, between the fields of one, or after none, one or both of the marking steps, leaves every source showing what it showed |
| MetadataRuns.LastAppLabelNotShown | app/metadata/utils.py:48-67 | A run of two payloads after which the app label of the last one is not shown |
| MetadataRuns.EveryRunShowsLastPayload | app/metadata/service.py:37-123 | After any run of synchronisations, for any mix of sources, successes and failures, a source shows exactly the last payload it synchronised successfully |
| MetadataRuns.EveryRunShowsAppLabels | app/metadata/service.py:37-123 | If every payload of a source lists its models by one rule, its active rows carry that rule's app labels after any run |
| MetadataRecords.EveryRunShowsModels | app/metadata/service.py:37-123 | After any run a source shows each model of the last payload it synchronised successfully as that payload lists it, and no other label |
| MetadataRecords.SynchronizeRecords | app/metadata/service.py:37-123 | One synchronisation adds one run record with its status, the snapshot's hash and the numbers of models and fields, sets the source's details and on success its time of last synchronisation, and touches no other source |
| MetadataService.MetadataDatabase.UpsertEntity | app/metadata/repository.py:167-209 | Row fields are assigned as specified; a hash match on an active row leaves it alone |
| MetadataService.MetadataDatabase.UpsertField | app/metadata/repository.py:211-272 | Row fields are assigned as specified; a hash match on an active row leaves it alone |
| MetadataService.MetadataDatabase.MarkMissingEntitiesInactive | app/metadata/repository.py:274-291 | The loop deactivates exactly the source's active entities with an unseen label and returns their number |
| MetadataService.MetadataDatabase.MarkMissingFieldsInactive | app/metadata/repository.py:293-318 | The loop deactivates exactly the active fields in scope with an unseen key and returns their number |
| MetadataService.MetadataDatabase.RunFullSync | app/metadata/service.py:125-195 | The nested loops and the marking compute the specified tables and counters, or the partial tables wherever an exception is raised |
| MetadataService.MetadataDatabase.SyncFullSnapshot | app/metadata/service.py:37-123 | Source, run record and rows end as specified, the rows restored when the pass raises |
| MergePlan.PlanIsWellFormed | app/common/services/sqlserver_reference_sync.py:277-310 | Every plan that is built synchronises columns that source and target share and joins on some of them |
| MergePlan.DefaultPlan | app/common/services/sqlserver_reference_sync.py:331-393 | Without an override a plan is built exactly when some key column is shared and the source marks every shared key column; it takes every shared column, and as key every shared key column |
| MergePlan.PlanIff | app/common/services/sqlserver_reference_sync.py:277-393 | With or without lists of columns and key columns in the override, a plan is built exactly when what is asked for is in both tables, the key among the columns chosen, and the rest can be found; the plan then has exactly the columns and the key asked for, in that order, or else every shared column and every key column among those chosen |
| MergePlan.PlanRefusal | app/common/services/sqlserver_reference_sync.py:311-411 | The error a plan is refused with names columns that are really missing, unshared or unmarked |
| MergeTheory.DifferenceIsReal | app/common/services/sqlserver_reference_sync.py:557-582 | In three-valued logic the difference condition of a text, bit or other column is true exactly when the column really differs, NULL differing from every value |
| MergeTheory.JoinIsSameKey | app/common/services/sqlserver_reference_sync.py:530-537 | The join is true exactly when every key part is non-NULL on both sides and equal under its column's collation |
| MergeTheory.UpdateFires | app/common/services/sqlserver_reference_sync.py:500-520 | A row is updated from a source row exactly when the keys match and some column outside the key really differs |
| MergeTheory.UpdatedTwiceIff | app/common/services/sqlserver_reference_sync.py:500-528 | The statement is refused for a double update exactly when two source rows would both change one target row |
| MergeEffect.UpdatableNames | app/common/services/sqlserver_reference_sync.py:72-77 | The update assigns exactly the synchronised columns outside the key |
| MergeEffect.RowEffect | app/common/services/sqlserver_reference_sync.py:500-528 | A matched row that really differs takes the source's value in every updatable column and keeps every other column; one that does not differ is untouched |
| MergeEffect.AddedRow | app/common/services/sqlserver_reference_sync.py:521-525 | The rows inserted are exactly the source rows whose key no target row has |
| MergeEffect.MergeRows | app/common/services/sqlserver_reference_sync.py:500-528 | The whole table after the statement: matched rows, rows without a source row, and inserted rows column by column |
| MergeEffect.ActionsCounted | app/common/services/sqlserver_reference_sync.py:420-426 | The actions written count one insert per unmatched source row and one update per really changed target row |
| MergeEffect.NothingLeft | app/common/services/sqlserver_reference_sync.py:500-528 | After the statement no source row would change any target row |
| MergeOutcome.IdentityRule | app/common/services/sqlserver_reference_sync.py:65-70 | The server accepts the statement's use of identity columns exactly when every synchronised one is in the key |
| MergeOutcome.IdentityOutsideKeyFails | app/common/services/sqlserver_reference_sync.py:995-1022 | A synchronised identity column outside the key fails every run, and nothing else fails this way |
| MergeOutcome.MergeSucceeds | app/common/services/sqlserver_reference_sync.py:500-528 | With distinct non-NULL keys that are the table's primary key, NULLs only where allowed, and no identity column outside the key, the statement succeeds |
| MergeOutcome.MergeAgain | app/common/services/sqlserver_reference_sync.py:500-528 | Running the statement again over the same source rows changes no row and reports no action |
| MergeExecutor.StatsExact | app/common/services/sqlserver_reference_sync.py:995-1031 | The reported counts are the source rows without a target row and the really changed target rows |
| MergeExecutor.SyncTwice | app/common/services/sqlserver_reference_sync.py:824-859 | The same source again: nothing inserted, nothing updated, the table as it was |
| MergeExecutor.TargetMirrorsSource | app/common/services/sqlserver_reference_sync.py:824-859 | After a synchronisation that succeeds every source row has a target row of its key that agrees with it on every updatable column, and no target row of its key disagrees with it |
| MergeExecutor.BatchStaged | app/common/services/sqlserver_reference_sync.py:836-847 | Rows staged in two parts are staged as they would be together, and are accepted exactly when both parts are |
| MergeExecutor.RowsPlan | app/common/services/sqlserver_reference_sync.py:751-790 | Rows given as payloads synchronise only columns that the first row names, and without an override all of the target's; when the first row names none nothing is synchronised |
| MergeExecutor.StagedNullRefused | app/common/services/sqlserver_reference_sync.py:443-459 | A source row with NULL in a NOT NULL column that is no identity column fails the synchronisation when it is staged |
| MergeExecutor.SyncKeepsConstraints | app/common/services/sqlserver_reference_sync.py:824-859 | A synchronisation that goes through leaves no NULL in a NOT NULL column and no two rows with one primary key |
| MergeExecutor.TargetConnection.StageBatches | app/common/services/sqlserver_reference_sync.py:836-849 | For every batch size the loop ends with all source rows staged in order, or fails exactly when some row violates NOT NULL |
| MergeExecutor.TargetConnection.RunMergeQuery | app/common/services/sqlserver_reference_sync.py:995-1031 | Identity insert is on for the statement only, and the summary's NULL counts as zero |
| MergeExecutor.TargetConnection.ExecuteStagingMerge | app/common/services/sqlserver_reference_sync.py:824-859 | For every batch size the batch loop ends and gives the same table, counts and error: those of staging all rows at once |
| MergeExecutor.TargetConnection.Execute | app/common/services/sqlserver_reference_sync.py:714-749 | Plan, staging and merge as specified; an error leaves the target as it was |
| MergeExecutor.TargetConnection.ExecuteFromRows | app/common/services/sqlserver_reference_sync.py:751-790 | Columns from the first payload row, missing values NULL, then as specified; an error leaves the target as it was |
| PricingTree.GroupsPartition | app/modules/service_catalog/service.py:1453-1490 | Grouped by any key in first-seen order, every row is in exactly one group |
| PricingTree.TotalsPermute | app/modules/service_catalog/service.py:1574-1588 | Totals do not depend on the order of the rows |
| PricingSummary.GetTree | app/modules/service_catalog/service.py:1448-1539 | The loop over buckets and node lists builds the specified tree and overall totals |
| PricingSummary.GetSummary | app/modules/service_catalog/service.py:1617-1683 | The loop over buckets builds the specified entries and totals |
| PricingTheory.TreeSharesRows | app/modules/service_catalog/service.py:1448-1588 | Every row is in exactly one node of the tree; group totals sum to their project's totals and those to the overall totals |
| PricingTheory.TreePlacesRows | app/modules/service_catalog/service.py:1457-1490 | A node holds exactly the rows of its project and group, and no project or group has two nodes |
| PricingOrder.TreeNodesHold | app/modules/service_catalog/service.py:1448-1539 | A group's rows stand in listing order and its totals are theirs; a project's totals are those of its rows; each node carries the group or project of its rows |
| PricingOrder.ProjectsInListingOrder | app/modules/service_catalog/service.py:1448-1539 | Projects come in the order in which the listing first names them |
| PricingOrder.GroupsInListingOrder | app/modules/service_catalog/service.py:1448-1539 | Groups come in the order in which the rows of their project first name them |
| PricingTheory.SummarySharesRows | app/modules/service_catalog/service.py:1617-1683 | The summary shares out the same rows and its entries add up to the same totals |
| PricingTheory.SummaryMatchesTree | app/modules/service_catalog/service.py:1617-1683 | For any two orders of the rows the totals agree and every group of the tree has its entry in the summary, with the same rows and totals |
| PricingTheory.EveryEntryHasNode | app/modules/service_catalog/service.py:1617-1683 | The other way round, every entry of the summary is the entry of a group of the tree, and no project and group have two entries |
| PricingOrder.SummaryInListingOrder | app/modules/service_catalog/service.py:1617-1683 | Entries come in the order in which the listing first names their pairs, each with its rows in listing order |
| PricingOrder.EntryHolds | app/modules/service_catalog/service.py:1617-1683 | An entry carries the project and group of its rows, its rows in listing order, and their totals |
| PurchaseTheory.ResolvedSelections | app/modules/service_catalog/service.py:907-954 | The selections are the joins of the configs asked for, in order, each of the customer and purchasable |
| PurchaseTheory.ResolveSucceeds | app/modules/service_catalog/service.py:907-954 | Selection succeeds exactly when every config is the customer's and it, its service, group and project are active |
| PurchaseTheory.ReplaceKeepsValid | app/modules/service_catalog/service.py:1145-1179 | Replacing the items keeps every purchase consistent and touches no other purchase |
| PurchaseTheory.CreateCorrect | app/modules/service_catalog/service.py:1014-1053 | A new purchase holds exactly the configs asked for at their prices of that moment; every other purchase is unchanged |
| PurchaseTheory.UpdateKeepsValid | app/modules/service_catalog/service.py:1076-1105 | Updating notes or items keeps every purchase consistent |
| PurchaseTheory.DeactivateKeepsValid | app/modules/service_catalog/service.py:1107-1129 | Deactivating keeps every purchase consistent |
| PurchaseOutcome.CreateIff | app/modules/service_catalog/service.py:1014-1053 | A purchase is created exactly for a non-empty selection of different configs that are the customer's, enabled, with active service, group and project, and a total that fits, by a local user who reaches the active customer; it holds those configs in order with their names and prices of the moment, totals summed from its items, the given notes and creator, and no other purchase changes |
| PurchaseOutcome.CreateRefusal | app/modules/service_catalog/service.py:907-1053 | A new purchase is refused for the first check that fails; in the selection a repeated config decides first, then the first config that is not the customer's or cannot be bought, then the total |
| PurchaseOutcome.UpdateIff | app/modules/service_catalog/service.py:1076-1105 | An update goes through exactly for an active purchase of an active customer the user reaches and, where it gives items, for a selection that can be bought; then the items are those asked for at their prices of the moment or stay, the totals are theirs, the notes are as given or stay, and customer, creator, active flag and every other purchase stay |
| PurchaseOutcome.DeactivateIff | app/modules/service_catalog/service.py:1107-1129 | Deactivation goes through exactly for a purchase the user can change, and clears the active flag only |
| PurchaseOutcome.RefusalOf | app/modules/service_catalog/service.py:1055-1129 | A change is refused as not found, with an inactive customer, or as denied, in that order |
| PurchaseOutcome.UpdateRefusal | app/modules/service_catalog/service.py:907-1105 | New items of a purchase that can be changed are refused in the same order |
| PurchaseOutcome.OwnPurchasesOnly | app/modules/service_catalog/service.py:1014-1129 | A customer's user creates, changes and deactivates purchases of that customer only |
| PurchaseRuns.BulkUpsertKeepsValid | app/modules/service_catalog/service.py:611-647 | Bulk changes of configs keep one config per customer and service and disturb no purchase |
| PurchaseRuns.UpdateConfigKeepsValid | app/modules/service_catalog/service.py:649-682 | Price changes and disabling disturb no purchase |
| PurchaseRuns.DeleteConfigKeepsValid | app/modules/service_catalog/service.py:684-698 | Deletion is refused exactly while some item refers to the config, and disturbs no purchase |
| PurchaseConfigs.UpdateConfigIff | app/modules/service_catalog/service.py:649-682 | An edit goes through exactly for an existing config, without null for a column that takes none and with prices that fit; it sets what is given and keeps the rest and every other config |
| PurchaseConfigs.DeleteConfigIff | app/modules/service_catalog/service.py:684-698 | A config is deleted exactly when it exists and no item refers to it, and nothing else goes |
| PurchaseConfigs.BulkUpsertIff | app/modules/service_catalog/service.py:611-647 | A bulk upsert goes through exactly for a known customer and a non-empty list of inputs for different services, with prices that fit, each for a service that is active or already configured; then every input is configured as given, in the config that was there if there was one, and no other config changes |
| PurchaseConfigs.EditRefusal | app/modules/service_catalog/service.py:649-682 | An edit is refused for a negative price, no such config, a null or a price too large, in that order |
| PurchaseConfigs.BulkRefusal | app/modules/service_catalog/service.py:611-647 | A bulk upsert is refused for the first check that fails; the first service that is neither active nor configured decides |
| PurchaseRuns.PerformKeepsValid | app/modules/service_catalog/service.py:611-698 | Every operation, catalog changes included, keeps every purchase consistent |
| PurchaseRuns.EveryRunKeepsPurchases | app/modules/service_catalog/service.py:1014-1195 | In every reachable state a purchase's count and totals are those of its stored items, grand total is sale plus support, its configs are distinct, exist and are its own customer's |
| PurchasePricing.EnabledSelections | app/modules/service_catalog/service.py:907-954 | Selecting the enabled configs of a pricing listing resolves and selects exactly its enabled rows |
| PurchasePricing.PurchaseMatchesTree | app/modules/service_catalog/service.py:1181-1195 | A purchase of exactly the enabled configs has the totals of the pricing tree, in whatever order rows and selection are |
| PurchaseService.CatalogDatabase.ResolveItems | app/modules/service_catalog/service.py:907-954 | The loop gives the selections or the error of the first item that fails |
| PurchaseService.CatalogDatabase.CalculateTotals | app/modules/service_catalog/service.py:1181-1195 | The loop accumulates the specified sums, a missing sale price counting as zero |
| PurchaseService.CatalogDatabase.ReplacePurchaseItems | app/modules/service_catalog/service.py:1145-1179 | Totals assigned, items deleted and added as specified, or an error and nothing changed |
| PurchaseService.CatalogDatabase.Create | app/modules/service_catalog/service.py:1014-1053 | Create commits what is specified, or reports the error and leaves every row as it was |
| PurchaseService.CatalogDatabase.Update | app/modules/service_catalog/service.py:1076-1105 | Update commits what is specified, or reports the error and changes nothing |
| PurchaseService.CatalogDatabase.Deactivate | app/modules/service_catalog/service.py:1107-1129 | Deactivate commits what is specified, or reports the error and changes nothing |
| PurchaseService.CatalogDatabase.UpsertConfigs | app/modules/service_catalog/service.py:611-647 | The loop assigns or adds configs one by one and commits them together, or changes nothing |
| PurchaseService.CatalogDatabase.DeleteSingle | app/modules/service_catalog/service.py:684-698 | Delete commits what is specified, or reports the error and changes nothing |
| Otp.RequestSound | app/modules/auth/service.py:71-105 | A request leaves at most one unused row per mobile and what was accepted stays used |
| Otp.VerifySound | app/modules/auth/service.py:126-150 | A verification accepts a row that was never accepted before and marks it used |
| OtpAnswers.RequestIff | app/modules/auth/service.py:71-105 | A code is sent exactly to an active user with fewer than the limit of rows since the threshold, if it can be delivered; then that mobile's rows are used up, one unused row with the code and its expiry is added, and other mobiles' rows stay |
| OtpAnswers.VerifyIff | app/modules/auth/service.py:126-150 | After any run a verification is accepted exactly when the mobile has an unused row that carries the code and has not expired, and its user is active; the row is used up even when only the user is inactive, which is answered as unauthorized; no other row changes |
| OtpAnswers.VerifyLatest | app/modules/auth/service.py:126-150 | Whatever the rows, the answer is decided by the latest unused one |
| Otp.EveryRunIsSound | app/modules/auth/service.py:71-150 | After any run a mobile has at most one unused row, and no row was accepted twice |
| Otp.FreshCodeVerifies | app/modules/auth/service.py:71-150 | The code just sent verifies exactly with itself and before its expiry; once it has, nothing verifies; a failed try changes nothing |
| Otp.WindowLimit | app/modules/auth/service.py:199-212 | Over any run a closed window of the configured length, less the lag of the row times behind the checks, holds at most the configured number of rows per mobile |
| Otp.WindowsHoldIff | app/modules/auth/service.py:199-212 | A request keeps every window within the limit exactly when fewer rows than the limit lie in the window before the row's own time, rather than before the time checked |
| Otp.WindowsHoldOverRuns | app/modules/auth/service.py:199-212 | Over every run whose row times never go back for the mobile, every window holds at most the limit exactly when every request that wrote a row had fewer rows than the limit in the window before the row's own time |
| Otp.LaggingRowExceedsLimit | app/modules/auth/service.py:199-212 | A row stamped one second before its check can be the fourth in a window of three |
| OtpService.OtpTable.EnforceRateLimit | app/modules/auth/service.py:199-212 | The count over the rows since the threshold is below the limit exactly when the request may go on |
| OtpService.OtpTable.InvalidatePreviousOtps | app/modules/auth/service.py:214-223 | Exactly the mobile's unused rows become used |
| OtpService.OtpTable.GetLatestUnusedOtp | app/modules/auth/service.py:225-235 | An unused row of the mobile with the latest creation time, if there is one |
| OtpService.OtpTable.Request | app/modules/auth/service.py:71-105 | Commits what is specified; a provider failure leaves the rows, earlier codes included, as they were |
| OtpService.OtpTable.Verify | app/modules/auth/service.py:126-150 | As specified; the row is used up even when the user turns out to be inactive |
| ExportColumns.TriedFit | app/commands/export_db_results.py:339-341 | Pigeonhole: there are no more suffixed names tried than names used, so the search for a free name ends |
| ExportColumns.NormalizedDistinct | app/commands/export_db_results.py:330-346 | The names of a query are pairwise distinct and none is a base column |
| ExportColumns.NameKept | app/commands/export_db_results.py:334-341 | A name that is neither a base column nor taken by an earlier column is kept, stripped |
| ExportColumns.BaseNameOf | app/commands/export_db_results.py:334-341 | A column name loses the white space around it, a name of white space only becomes "column", and a base column's name gets the prefix "query_" |
| ExportColumns.EveryRunCovers | app/commands/export_db_results.py:321-352 | After any sequence of registrations and rows the header starts with the base columns, has no duplicate and covers every key of every row |
| ExportColumns.EveryColumnBrought | app/commands/export_db_results.py:321-352 | The header holds the base columns, what the queries registered and what the rows named, and nothing else |
| ExportColumns.RowsInOrder | app/commands/export_db_results.py:321-352 | Rows are kept in the order they were added, and later events only append columns |
| ExportColumns.ExtendOrder | app/commands/export_db_results.py:343-346 | New columns come in the order in which they are first named |
| ExportColumns.EveryCellReadsBack | app/commands/export_db_results.py:365-386 | Every cell of every row stands in the saved sheet under its own column and no other of that name; other columns are blank |
| ExportColumns.QueryPayloadReads | app/commands/export_db_results.py:564-573 | Under normalized names no value of a query displaces another or a field of the scan |
| ExportBuffer.ExcelExportBuffer.FreshName | app/commands/export_db_results.py:337-341 | The while loop ends with the first free name: the base name, or the least free suffix |
| ExportBuffer.ExcelExportBuffer.RegisterQueryColumns | app/commands/export_db_results.py:330-346 | Returns the specified names and extends the header by those not there yet |
| ExportBuffer.ExcelExportBuffer.AddResultRow | app/commands/export_db_results.py:348-352 | Extends the header by the row's keys and keeps the row |
| ExportBuffer.ExcelExportBuffer.Save | app/commands/export_db_results.py:365-386 | One row per result, one cell per column of the final header |

## Left out

- JalaliText.JalaliString: printing is modelled for Gregorian years from 1601 on; up to 1600 only the conversions and the validators are.
- Order of siblings, entities and fields where a query orders by a database collation: lists are read as sets or maps there.
- List queries, search, pagination, mappers other than the form mapper, and the snapshot payload text.
- Sub-field lists of a field update that are not empty: the code calls a method on dictionaries that have none; the model reports a failure and commits nothing.
- JSON serialisation, SHA-256, token signing, password hashing and message delivery: outside the model; a hash stands for what is hashed, delivery is a parameter.
- Conversion of decimals, dates, identifiers and bytes to JSON values in the export, and the error sheet.
- Pydantic's stripping of payload strings before metadata synchronisation, and values other than JSON values in `choices`: payloads are taken as they are after validation.
- Time zones of the stored timestamps, and microseconds: snapshots are stored without microseconds.
- Linked-server merges: the source's collations and types may conflict there; the statement is otherwise the same.
- Row diagnosis after a failed file synchronisation: it runs one-row merges and rolls each back.
- SQL text and identifier quoting, conversion errors between column types, and comparisons the server refuses (`text`, `ntext`, `xml`).
- FormSyncOutcome.SyncSucceedsIff: payloads in which two siblings share a key are not covered; `FormSyncTheory.SyncChildrenCorrect` says what is left when one of those goes through.
- MergePlan.Lower: lowers the letters A to Z only; type names outside ASCII are not lowered.
- MergeExecutor.TargetConnection.Execute: source metadata and source rows are parameters; a batch size of zero, with which the code would stage nothing, is excluded.
- PurchaseService.CatalogDatabase.Create: the foreign key of the creating user is not modelled, nor is the read-back of the committed row.
- PurchaseConfigs.BulkUpsertIff: the notes of a config, set like its other attributes, are not modelled.
- PricingSummary.GetTree: a bucket holds the position of a node in its list where the code holds a reference to the node.
- OtpService.OtpTable.GetLatestUnusedOtp: between unused rows of one creation time the later row is taken where the database may take either; in reachable states there is at most one.
- FormFieldService.FormDatabase.ApplySeedDefinitions: a seed whose head matches several stored forms cannot occur, because the unique index covers key, scope and version.
- Concurrent requests: steps are sequential.
- Access control of administrators outside purchases, HTTP controllers, message texts and exception handlers.
- Income import, bridge subscriptions, user management, migrations.
