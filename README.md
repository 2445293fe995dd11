# Canopus, modelled in Dafny

Canopus is a small note-keeping system. A *remark* is a short text (its
*essence*) carrying a set of *tags*, and a *tag* is a normalised title. The
repository also holds a brand catalog: a `brands` table behind a factory
service and a catalog service, each with its own HTTP error mapping.

This project models the core of those crates and proves what they promise.

- **Value types.** `TagTitle` (the blank check, then `trim` and
  `to_lowercase`), `RemarkEssence` (the blank check, then `trim`) and
  `BrandName` (2 to 100 UTF-8 bytes). The blank check looks at the raw
  input, so an all-whitespace input is accepted and gives an empty value;
  this is proved rather than hidden.
- **Entities.** `Remark` and `Tag` are classes whose setters change fields
  in place. `Remark` keeps its tags as a sorted set without repeats, and
  `set_updated_at` refuses a time that would move `updated_at` backwards.
  The older `Remark` keeps a plain list, and `add_tag` appends to it.
- **Use cases.** The remark and tag operations run over an in-memory store
  class: they validate first, fail before anything is written, and return
  the state the source returns. The factory's `create_brand`/`list_brands`
  and the catalog's `CreateBrand`/`DeleteBrand`/`ListBrands` are modelled
  the same way, over a `brands` table class.
- **Persistence.** The SQL statements of the repository and dataspine
  crates are methods on a class holding the `remarks`, `tags`,
  `remarks_tags` and `brands` tables. Each method states the statement's
  set-level meaning: the rows added or removed, the affected-row count, and
  what a later read sees. The dataspine crate's `remarks` statements
  (`create`, `get`, `update`, `delete`) are the same statements as the
  repository crate's, so each is modelled once.
- **Translators.** The wire conversions and their round trips, the HTTP
  status tables of the three servers, REST paths, `PageToken` display, the
  CLI's session state and its remarks commands, the presenters (including
  the 40-unit essence truncation), and the shell's command parser, help
  text, prompt and evaluation step.

Shared pieces live in their own modules:
- `Text`: Rust's `trim` over the Unicode White_Space set, ASCII
  lower-casing, `split_whitespace` and the string order.
- `Outcomes`: `Option`, `Result`, and `CollectAll`, which models
  `collect::<Result<Vec<_>, _>>()`.
- `Sorting`: an `ORDER BY` specified as a sorted permutation.
- `TitleSets`: `BTreeSet<TagTitle>` as a strictly ascending sequence.
- `Timestamps`: the `updated_at` guard.

Database-generated ids and timestamps, and the clock, are parameters. The
inserts that a unique constraint can refuse (`Tables.Database.CreateTag`,
`Tables.Database.CreateTagVerbatim`, both brand `InsertBrand` methods) and
the catalog's `FindOneAndDeleteBrand` take an optional `fault` parameter
for a storage failure; every other statement is modelled as infallible.

## Model

| member | source | states |
|---|---|---|
| AppErrors.InvalidArgumentError | crates/canopus-operations/src/remarks.rs:91 | `ApplicationError::invalid_argument(reason)`: an invalid-argument error carrying the reason, the argument name left empty |
| TagTitles.NewTagTitle | crates/canopus-definitions/src/tags/tag_title.rs:8-16 | fails exactly on the empty input, and then with the invalid-argument error "tag title can't be blank" |
| TagTitles.NewTagTitleCanonical | crates/canopus-definitions/src/tags/tag_title.rs:15 | a built title has no whitespace at either end and no upper-case letter |
| TagTitles.WhitespaceTitleAccepted | crates/canopus-definitions/src/tags/tag_title.rs:9-15 | the blank check looks at the raw input: a non-empty, all-whitespace input is accepted and yields the empty title |
| TagTitles.TitleIsTrimmedLowercase | crates/canopus-definitions/src/tags/tag_title.rs:15 | a non-empty input is accepted and yields the trim of its lower-cased text (trimming and lower-casing commute) |
| TagTitles.SameTitleUpToWhitespaceAndCase | crates/canopus-definitions/src/tags/tag_title.rs:15 | two non-empty inputs that differ only in surrounding whitespace and letter case give equal titles |
| TagTitles.NewTagTitleIdempotent | crates/canopus-definitions/src/tags/tag_title.rs:15 | feeding a built, non-empty title's text back in gives the same title |
| TagTitles.NormalizedRoundTrip | crates/canopus-definitions/src/tags/tag_title.rs:8-16 | a non-empty, trimmed, lower-case text is accepted and stored unchanged |
| TagTitles.TitleOrder | crates/canopus-definitions/src/tags/tag_title.rs:4-5 | the derived equality and order of titles are those of the inner strings: a strict total order |
| RemarkEssences.NewRemarkEssence | crates/canopus-definitions/src/remarks/remark_essence.rs:8-16 | fails exactly on the empty input, with the invalid-argument error "remark essence can't be blank"; an accepted essence has no whitespace at either end |
| RemarkEssences.WhitespaceEssenceAccepted | crates/canopus-definitions/src/remarks/remark_essence.rs:9-15 | a non-empty, all-whitespace input passes the check and yields the empty essence |
| RemarkEssences.EssenceIsInnerSlice | crates/canopus-definitions/src/remarks/remark_essence.rs:15 | the essence is a contiguous slice of the input with only whitespace cut from either end: case and interior characters are kept |
| RemarkEssences.EssenceIgnoresSurroundingWhitespace | crates/canopus-definitions/src/remarks/remark_essence.rs:15 | whitespace added around a non-empty input does not change the essence |
| RemarkEssences.NewRemarkEssenceOfTrimmed | crates/canopus-definitions/src/remarks/remark_essence.rs:15 | an already trimmed, non-empty essence is returned unchanged |
| Timestamps.CheckUpdatedAt | crates/canopus-definitions/src/remarks/mod.rs:67-77 | the guard refuses exactly a time earlier than the current one, with the invalid-argument error "updated_at must be greater than current updated_at" |
| Timestamps.NextUpdatedAt | crates/canopus-definitions/src/remarks/mod.rs:67-77 | one call leaves either the requested time (exactly when accepted) or the current one, never an earlier one |
| Timestamps.Replay | crates/canopus-definitions/src/remarks/mod.rs:67-77 | over any series of calls, `updated_at` ends at least at its start and at every requested time, and is one of them |
| Timestamps.ReplayAppend | crates/canopus-definitions/src/remarks/mod.rs:67-77 | running two series of calls one after the other is running their concatenation |
| TitleSets.Insert | crates/canopus-definitions/src/remarks/mod.rs:53 | inserting keeps the set strictly ascending and adds exactly the new title |
| TitleSets.FromIter | crates/canopus-definitions/src/remarks/mod.rs:53 | the set built from a list is strictly ascending and holds exactly the list's titles |
| TitleSets.SortedUnique | crates/canopus-definitions/src/remarks/mod.rs:15 | two strictly ascending sequences with the same members are equal: a set has one enumeration |
| TitleSets.FromIterSameMembers | crates/canopus-definitions/src/remarks/mod.rs:63-65 | the stored set depends only on which titles were given, not on their order or repetitions |
| TitleSets.FromIterOfSorted | crates/canopus-definitions/src/remarks/mod.rs:79-81 | titles already ascending and without repeats are stored, and enumerated, as given |
| TitleSets.FromIterCollapsesDuplicates | crates/canopus-definitions/src/remarks/mod.rs:53 | giving a title a second time does not change the set |
| Remarks.Remark.constructor | crates/canopus-definitions/src/remarks/mod.rs:41-57 | keeps id, essence and both timestamps as given; the tags become the ascending, duplicate-free set of the given titles |
| Remarks.Remark.SetEssence | crates/canopus-definitions/src/remarks/mod.rs:59-61 | replaces the essence; id, tags and timestamps are untouched |
| Remarks.Remark.SetTags | crates/canopus-definitions/src/remarks/mod.rs:63-65 | replaces the whole tag set by the set of the given titles; earlier tags are not kept |
| Remarks.Remark.SetUpdatedAt | crates/canopus-definitions/src/remarks/mod.rs:67-77 | an earlier time is refused and changes nothing; an equal or later one is stored; `updated_at` never decreases |
| Remarks.Remark.Tags | crates/canopus-definitions/src/remarks/mod.rs:79-81 | the titles in strictly ascending order, exactly the stored set |
| Tags.Tag.constructor | crates/canopus-definitions/src/tags/mod.rs:35-49 | keeps id, title and both timestamps as given |
| Tags.Tag.SetTitle | crates/canopus-definitions/src/tags/mod.rs:51-53 | replaces the title and nothing else |
| Tags.Tag.SetUpdatedAt | crates/canopus-definitions/src/tags/mod.rs:55-65 | an earlier time is refused with the invalid-argument error and changes nothing; an equal or later one is stored; `updated_at` never decreases |
| LegacyRemarks.LegacyRemark.constructor | crates/canopus-definitions/src/remarks.rs:47-63 | keeps every attribute; the essence is wrapped as given, neither checked nor trimmed |
| LegacyRemarks.LegacyRemark.AddTag | crates/canopus-definitions/src/remarks.rs:27-29 | appends at the end: one more entry, the earlier list an unchanged prefix, and a tag already present counted twice |
| LegacyRemarks.LegacyRemark.SetTags | crates/canopus-definitions/src/remarks.rs:31-33 | replaces the list exactly, order and repeats included |
| LegacyRemarks.LegacyRemark.Tags | crates/canopus-definitions/src/remarks.rs:65-67 | the stored list in stored order |
| Pages.FromString | crates/canopus-definitions/src/page/page_token.rs:20-24 | the string is wrapped unchanged |
| Pages.Deref | crates/canopus-definitions/src/page/page_token.rs:6-12 | the wrapped string, from which `From` rebuilds the same token |
| Pages.Display | crates/canopus-definitions/src/page/page_token.rs:14-18 | the token text verbatim between "PageToken { " and " }": 14 characters longer than the token |
| Pages.DerefFromString | crates/canopus-definitions/src/page.rs:42-46 | building a token from a string and dereferencing it gives the string back |
| Pages.DisplayInjective | crates/canopus-definitions/src/page.rs:25-29 | different tokens are displayed differently |
| Outcomes.CollectAll | crates/canopus-operations/src/remarks.rs:118 | a successful collection has one value per input element |
| Outcomes.CollectAllOkIff | crates/canopus-operations/src/remarks.rs:103 | collecting succeeds exactly when every element converts |
| Outcomes.CollectAllEvery | crates/canopus-operations/src/remarks.rs:103 | a successful collection holds, at every position at once, the conversion of the element there |
| Outcomes.CollectAllValues | crates/canopus-operations/src/remarks.rs:118 | each collected value is the conversion of the element at the same position |
| Outcomes.CollectAllFirstError | crates/canopus-operations/src/remarks.rs:103 | a failed collection reports the error of the first element that fails |
| Outcomes.CollectAllErrorOrigin | crates/canopus-operations/src/remarks.rs:103 | the error of a failed collection is the error of one of the elements |
| Outcomes.CollectAllAppend | crates/canopus-operations/src/remarks.rs:103 | collecting a concatenation of two convertible lists concatenates their results |
| RemarkOperations.ParseTitles | crates/canopus-operations/src/remarks.rs:103 | the titles of a list, one per input; the only possible error is the blank-title error |
| RemarkOperations.ParseTitlesOkIff | crates/canopus-operations/src/remarks.rs:103 | the list of titles is accepted exactly when no input is empty |
| RemarkOperations.ParseTitlesValues | crates/canopus-operations/src/remarks.rs:118 | the title at each position is what `TagTitle::new` builds from the input at that position |
| RemarkOperations.ParseTitlesNormalizes | crates/canopus-operations/src/remarks.rs:118 | each collected title is its input trimmed and lower-cased, in input order |
| RemarkOperations.NewRemarkFrom | crates/canopus-operations/src/remarks.rs:112-121 | succeeds exactly when the essence is non-empty and every tag is; the essence error comes first; the values are the validated essence and titles |
| RemarkOperations.ApplyChanges | crates/canopus-operations/src/remarks.rs:96-105 | the changed remark exists exactly when every supplied value is valid; id and timestamps are kept |
| RemarkOperations.ApplyChangesFields | crates/canopus-operations/src/remarks.rs:96-105 | a field not supplied keeps its value; a supplied essence is the validated one; supplied tags become the set of the validated titles |
| RemarkOperations.BlankEssenceFirst | crates/canopus-operations/src/remarks.rs:98-100 | an empty essence is reported even when the tags are invalid too |
| RemarkOperations.ApplyChangesTagSet | crates/canopus-operations/src/remarks.rs:102-105 | after a tag change the remark holds exactly the supplied titles; earlier ones are dropped |
| RemarkOperations.CreateRemark | crates/canopus-operations/src/remarks.rs:53-60 | an invalid essence or tag fails with its error and the store is untouched; otherwise the remark stored under the new id and returned holds the validated essence, the set of the validated tags, and `now` as both timestamps |
| RemarkOperations.UpdateRemark | crates/canopus-operations/src/remarks.rs:85-110 | no changes fails with "no remark changes provided" before the store is read; a missing remark or invalid value fails with nothing written; otherwise the changed remark is written and returned |
| RemarkOperations.DeleteRemark | crates/canopus-operations/src/remarks.rs:63-69 | a missing remark fails and nothing is deleted; otherwise the remark is removed and returned as it was before deletion |
| Stores.Store.GetRemark | crates/canopus-operations/src/remarks.rs:29-31 | the stored remark, or not-found for a missing id |
| Stores.Store.InsertRemark | crates/canopus-operations/src/remarks.rs:33-36 | stores the new remark under the fresh id, tags as a set, both timestamps `now`, and returns it |
| Stores.Store.UpdateRemark | crates/canopus-operations/src/remarks.rs:38-43 | overwrites the stored remark, or reports not-found and changes nothing |
| Stores.Store.DeleteRemark | crates/canopus-operations/src/remarks.rs:25-27 | removes the remark, or reports not-found |
| Stores.Store.GetTag | crates/canopus-operations/src/tags.rs:5-7 | the stored tag, or not-found for a missing id |
| Stores.Store.UpdateTag | crates/canopus-operations/src/tags.rs:16-18 | writes the tag's title to its row and gives the row and the caller's tag (taken mutably) the new `updated_at`; a missing row is reported as not-found and neither store nor tag changes |
| TagOperations.GetTag | crates/canopus-operations/src/tags.rs:26-28 | the store's answer, unchanged |
| TagOperations.UpdateTag | crates/canopus-operations/src/tags.rs:39-50 | a failed fetch is returned and nothing is written; otherwise the returned tag keeps its id and `created_at`, carries the requested title and the write's `updated_at`, and is exactly the row now stored |
| Protocol.IsEmpty | crates/canopus-protocol/src/remarks.rs:41-45 | an update request is empty exactly when it has no essence and no tags to add or remove |
| Protocol.ProtocolRemark.constructor | crates/canopus-protocol/src/remarks.rs:88-104 | keeps every attribute; the essence is stored as given |
| Protocol.ProtocolRemark.SetTags | crates/canopus-protocol/src/remarks.rs:106-108 | replaces the tag list exactly |
| Protocol.Sanitize | crates/canopus-protocol/src/remarks.rs:154-160 | the result has no whitespace at either end, is a slice of the input with only whitespace cut away, and is empty for an all-whitespace input |
| Protocol.SanitizeNewRemark | crates/canopus-protocol/src/remarks.rs:119-128 | the essence and every tag are sanitised; the number and order of tags are kept |
| Protocol.SanitizeNewRemarkIdempotent | crates/canopus-protocol/src/remarks.rs:122-125 | sanitising an already sanitised remark changes nothing |
| Protocol.CreateRemark | crates/canopus-protocol/src/create_remark.rs:14-23 | the repository receives the sanitised remark and its answer is passed back unchanged |
| Protocol.BlankValuesForwarded | crates/canopus-protocol/src/create_remark.rs:14-31 | no blank check: a whitespace-only essence or tag reaches the repository as an empty string |
| Persistence.FromSqlxErr | crates/canopus-repository/src/lib.rs:31-36 | a missing row, and only a missing row, becomes not-found; every other error becomes a repository failure carrying the error's text |
| Persistence.TagFromRow | crates/canopus-repository/src/tags.rs:71-87 | copies id, title and both timestamps |
| Persistence.TagFromRowInjective | crates/canopus-repository/src/tags.rs:71-87 | distinct rows give distinct tags: nothing is lost |
| Persistence.RemarkFromRow | crates/canopus-repository/src/remarks.rs:84-100 | copies id, essence and both timestamps; the tag list is empty |
| Tables.NewerFirst | crates/canopus-repository/src/remarks.rs:55 | `ORDER BY created_at DESC`: a row goes before another when it was created no earlier |
| Tables.NewerFirstIsTotalOrder | crates/canopus-repository/src/remarks.rs:55 | `ORDER BY created_at DESC` compares rows totally and transitively |
| Tables.LinkedTags | crates/canopus-repository/src/remarks.rs:49-63 | the join of `remarks_tags` with `tags` for one remark: one tag row per matching link |
| Tables.LinkedTagsMembers | crates/canopus-repository/src/remarks.rs:53-54 | a tag row is in the join exactly when it is stored and linked to the remark |
| Tables.RemoveLink | crates/canopus-dataspine/src/storage/remarks_tags.rs:22-23 | every row equal to the pair is gone, every other row is kept with its multiplicity, and the length drops by the number removed |
| Tables.KeepReferenced | crates/canopus-repository/src/remarks_tags.rs:45-53 | exactly the links whose remark is in the given set are kept, each with its multiplicity |
| Tables.KeepReferencedIdempotent | crates/canopus-repository/src/remarks_tags.rs:42-60 | sweeping a second time removes nothing more |
| Tables.Database.FoundAfterCreate | crates/canopus-repository/src/tags.rs:44-50 | after `create_tag` succeeds, `find` with any query of the same lower-case form returns a row, and that row holds the lower-cased title |
| Tables.Database.CreateTag | crates/canopus-repository/src/tags.rs:13-26 | a successful insert adds exactly one row, with the lower-cased title and the fresh id it returns; a refused insert changes nothing |
| Tables.Database.CreateTagVerbatim | crates/canopus-dataspine/src/storage/tags.rs:4-17 | adds exactly one row with the title verbatim and returns its id; other rows are unchanged |
| Tables.Database.DeleteTag | crates/canopus-repository/src/tags.rs:28-34 | removes the row and reports 1, or reports 0 when absent; other rows and tables are unchanged |
| Tables.Database.GetTag | crates/canopus-repository/src/tags.rs:36-42 | the stored row, or row-not-found for a missing id |
| Tables.Database.FindTag | crates/canopus-repository/src/tags.rs:44-50 | an id whose title equals the lower-cased query, and none exactly when no row has that title |
| Tables.Database.UpdateTag | crates/canopus-repository/src/tags.rs:52-69 | sets the lower-cased title and the new `updated_at` on the matching row only, and reports 1, or 0 and no change |
| Tables.Database.CreateRemark | crates/canopus-repository/src/remarks.rs:15-28 | adds exactly one row with the given essence and returns its id |
| Tables.Database.DeleteRemark | crates/canopus-repository/src/remarks.rs:30-39 | removes the row and reports 1, or reports 0 when absent; links are left alone |
| Tables.Database.GetRemark | crates/canopus-repository/src/remarks.rs:41-47 | the stored row, or row-not-found for a missing id |
| Tables.Database.GetEssence | crates/canopus-dataspine/src/storage/remarks.rs:27-33 | the stored essence, or row-not-found for a missing id |
| Tables.Database.UpdateRemark | crates/canopus-repository/src/remarks.rs:65-82 | replaces the essence and `updated_at` of the matching row only, and reports 1 (a later read sees the new essence), or 0 and no change |
| Tables.Database.ListTags | crates/canopus-repository/src/remarks.rs:49-63 | exactly the stored tags linked to the remark, one per link, newest first |
| Tables.Database.CreateRemarkTag | crates/canopus-repository/src/remarks_tags.rs:7-20 | appends exactly the pair, which then exists |
| Tables.Database.RemarkTagExists | crates/canopus-repository/src/remarks_tags.rs:22-40 | true exactly when a row holds that remark and that tag |
| Tables.Database.DeleteRemarkTag | crates/canopus-dataspine/src/storage/remarks_tags.rs:19-32 | removes every row with both ids, reports how many, and keeps all other rows |
| Tables.Database.DeleteUnusedRemarksTags | crates/canopus-repository/src/remarks_tags.rs:42-60 | removes exactly the links whose remark is gone: every remaining link refers to a stored remark and every such link stays |
| Wire.FromApplicationError | crates/canopus-wire/src/error.rs:21-31 | invalid-argument and not-found keep their kind and fields; internal becomes the payload-free internal message; the conversion never yields unimplemented |
| Wire.FromApplicationErrorLosesOnlyReport | crates/canopus-wire/src/error.rs:21-31 | two errors with the same message are equal, or are both internal: only the report is dropped |
| Wire.ToTagMessage | crates/canopus-wire/src/tags.rs:14-23 | copies id, title, `created_at` and `updated_at` |
| Wire.FromTagMessage | crates/canopus-wire/src/tags.rs:25-41 | copies all four fields |
| Wire.TagMessageRoundTrip | crates/canopus-wire/src/tags.rs:14-41 | a message converted to a tag and back is the same message |
| Wire.TagRoundTrip | crates/canopus-wire/src/tags.rs:14-41 | a tag converted to a message and back is the same tag |
| Wire.FromPageMessage | crates/canopus-wire/src/lib.rs:19-35 | the same number of items, each the conversion of the item at the same position; the next-page token present exactly when it was, with the same text |
| Wire.FromPageMessageAppend | crates/canopus-wire/src/lib.rs:31 | converting the items of two pages put together is putting their converted items together |
| Api.Status | crates/canopus-api/src/error.rs:6-19 | a response is 400 exactly for a bad request, 500 exactly for an internal error, and 404 exactly for not-found and unimplemented |
| Api.InternalResponse | crates/canopus-api/src/error.rs:58-60 | a 500 response with the detail-free internal message |
| Api.InvalidId | crates/canopus-api/src/error.rs:47-52 | a 400 response with argument "ID" and reason "is not a valid UUID" |
| Api.UnimplementedResponse | crates/canopus-api/src/error.rs:54-56 | the unimplemented message, served with 404 |
| Api.FromEngineError | crates/canopus-api/src/error.rs:21-36 | invalid argument is a 400 with the same argument and reason; not-found a 404 with the same resource and id; application and engine internal errors both a bare 500 |
| Api.ResponseBodyIsWireMessage | crates/canopus-api/src/error.rs:24-32 | the body of an application error's response is the wire crate's message for that error |
| Client.PathText | crates/canopus-client/src/rest.rs:121-130 | "/remarks" and "/tags" for the collections; the collection path, "/" and the hyphenated id for one resource |
| Client.PathTextInjective | crates/canopus-client/src/rest.rs:121-130 | different paths (kind or id) are written differently |
| Client.ToResult | crates/canopus-client/src/rest.rs:132-139 | a success response becomes `Ok` and an error response `Err`, payloads unchanged |
| Uuids.UnhexHex | crates/canopus-client/src/rest.rs:125 | reading back the hexadecimal digits of an id gives the id: the text loses nothing |
| Uuids.UuidText | crates/canopus-client/src/rest.rs:125 | the id in the 36-character hyphenated form that follows "/remarks/" and "/tags/" |
| Uuids.UuidTextInjective | crates/canopus-client/src/rest.rs:125-127 | distinct ids are written differently |
| CliRemarks.AsChanges | crates/canopus-client/src/remarks.rs:16-19 | the client's update request, sent as JSON, arrives as the use case's `RemarkChanges` (crates/canopus-operations/src/remarks.rs:15-18) with the same two optional fields |
| CliRemarks.TagTexts | crates/canopus-cli/src/commands/remarks.rs:75 | one text per tag of the remark, the tag's title, in the remark's order |
| CliRemarks.AddRemarkTags | crates/canopus-cli/src/commands/remarks.rs:72-85 | the update leaves the essence alone and sends the current tag texts followed by the added ones |
| CliRemarks.ClearRemarkTags | crates/canopus-cli/src/commands/remarks.rs:89-98 | the update leaves the essence alone and sends an empty tag list |
| CliRemarks.EditRemark | crates/canopus-cli/src/commands/remarks.rs:134-146 | the update sends only the edited essence and leaves the tags alone |
| CliRemarks.NewRemark | crates/canopus-cli/src/commands/remarks.rs:150-160 | the new remark carries the editor's text and no tags |
| CliRemarks.ShowLastRemark | crates/canopus-cli/src/commands/remarks.rs:169-175 | something is shown exactly when the first page has items, and then it is the first item |
| CliRemarks.KeepAbsent | crates/canopus-cli/src/commands/remarks.rs:120 | filtering never lengthens the list |
| CliRemarks.KeepAbsentMembers | crates/canopus-cli/src/commands/remarks.rs:120 | a text survives the filter exactly when the list held it and it is not among the texts to remove |
| CliRemarks.KeepAbsentAppend | crates/canopus-cli/src/commands/remarks.rs:120 | the filter works element by element, so the survivors keep their order |
| CliRemarks.KeepAbsentOfDisjoint | crates/canopus-cli/src/commands/remarks.rs:120 | removing texts the list does not hold changes nothing |
| CliRemarks.Retain | crates/canopus-cli/src/commands/remarks.rs:118-120 | `Vec::retain` in place: the first `n` cells hold exactly the surviving texts, in their original order |
| CliRemarks.DeleteRemarkTags | crates/canopus-cli/src/commands/remarks.rs:112-130 | the update leaves the essence alone and sends the current tag texts minus those equal to a text to remove |
| CliRemarks.ParseTagTexts | crates/canopus-cli/src/commands/remarks.rs:75 | the texts of normalised titles parse back to the same titles, so resending them is harmless |
| CliRemarks.AddRemarkTagsUnion | crates/canopus-cli/src/commands/remarks.rs:72-85 | on a remark with normalised titles, adding tags succeeds and the new tag set is the old set together with the parsed additions |
| CliRemarks.EmptyTitleBlocksAddRemarkTags | crates/canopus-cli/src/commands/remarks.rs:72-85 | a remark holding an empty title makes every later tag addition fail, because the client resends that title |
| CliRemarks.ClearRemarkTagsEmpties | crates/canopus-cli/src/commands/remarks.rs:89-98 | clearing tags leaves the remark with no tags and the same essence |
| CliRemarks.DeleteRemarkTagsDifference | crates/canopus-cli/src/commands/remarks.rs:112-130 | a title leaves the remark exactly when its text equals one of the requested texts (an exact comparison, so case matters) |
| CliRemarks.KeptTextMember | crates/canopus-cli/src/commands/remarks.rs:118-120 | a surviving text is the title of a current tag that was not asked to be removed, and every such title survives |
| Sessions.Replay | crates/canopus-cli/src/session.rs:24-35 | the session state after a series of `change_attribute` calls, each applied to the state the previous ones left |
| Sessions.ReplayTracksLatest | crates/canopus-cli/src/session.rs:24-43 | after any run of changes each getter returns the value set most recently, the two tokens do not interfere, and the changed flag is set by the first change and stays set |
| Sessions.Session.IsChanged | crates/canopus-cli/src/session.rs:45-47 | `is_changed`: the changed flag |
| Sessions.Session.RemarksToken | crates/canopus-cli/src/session.rs:53-55 | `remarks_pagination_token`: the stored remarks token |
| Sessions.Session.TagsToken | crates/canopus-cli/src/session.rs:57-59 | `tags_pagination_token`: the stored tags token |
| Sessions.Session.constructor | crates/canopus-cli/src/session.rs:8-16 | the default session has no tokens and is not changed |
| Sessions.Session.ChangeAttribute | crates/canopus-cli/src/session.rs:24-35 | marks the session changed and replaces the one attribute named, leaving the other token alone |
| Sessions.Session.ClearRemarksPaginationToken | crates/canopus-cli/src/session.rs:37-39 | only the remarks token is cleared, and the session is marked changed |
| Sessions.Session.ClearTagsPaginationToken | crates/canopus-cli/src/session.rs:41-43 | only the tags token is cleared, and the session is marked changed |
| Sessions.Session.SetRemarksPaginationToken | crates/canopus-cli/src/session.rs:69-71 | only the remarks token is set, and the session is marked changed |
| Sessions.Session.SetTagsPaginationToken | crates/canopus-cli/src/session.rs:73-75 | only the tags token is set, and the session is marked changed |
| Formatter.TagPresenterOf | crates/canopus-cli/src/formatter.rs:94-103 | the presenter carries the tag's id, title and both timestamps |
| Formatter.TagPresenterInjective | crates/canopus-cli/src/formatter.rs:94-103 | different tags are presented differently |
| Formatter.RemarkPresenterOf | crates/canopus-cli/src/formatter.rs:64-74 | the presenter carries the remark's fields and one tag presenter per tag, in order |
| Formatter.RemarkPresenterInjective | crates/canopus-cli/src/formatter.rs:64-74 | equal presentations come from remarks with equal fields |
| Formatter.RowPresenterOf | crates/canopus-cli/src/formatter.rs:76-91 | a row never shows more than 40 units of essence: a short essence is shown whole, a longer one as its first 37 followed by "..." |
| ShellCommands.ParseCommand | crates/canopus-shell/src/commands.rs:12-24 | exactly ".help" and ".quit" are commands; any other text is a parse error quoting the input |
| ShellCommands.CommandText | crates/canopus-shell/src/commands.rs:26-35 | a command prints as a dot followed by four letters |
| ShellCommands.ParseCommandText | crates/canopus-shell/src/commands.rs:12-35 | parsing a printed command gives the command back |
| ShellCommands.CommandTextOfParse | crates/canopus-shell/src/commands.rs:12-35 | printing a parsed command gives back the input it came from |
| ShellCommands.ErrorText | crates/canopus-shell/src/commands.rs:6-10 | the parse error's message quotes the rejected input between fixed text |
| ShellCommands.ErrorTextInjective | crates/canopus-shell/src/commands.rs:6-10 | different rejected inputs give different messages |
| ShellCommands.PadRight | crates/canopus-shell/src/commands.rs:40-41 | the `<5` format: the text itself, padded with spaces on the right up to the width |
| ShellCommands.TrimFramed | crates/canopus-shell/src/commands.rs:38-47 | a trimmed text between the layout's leading newline and trailing indentation trims back to itself |
| ShellCommands.HelpMessage | crates/canopus-shell/src/commands.rs:37-48 | `help_message`: the two command lines, each name padded to width 5, framed by newlines and trimmed |
| ShellCommands.HelpMessageText | crates/canopus-shell/src/commands.rs:37-48 | the help text is exactly the two command lines joined by a newline |
| ShellResources.ResourceText | crates/canopus-shell/src/resources.rs:7-16 | a resource prints as a non-empty lower-case word |
| ShellResources.ResourceTextInjective | crates/canopus-shell/src/resources.rs:7-16 | the two resources print differently |
| Shell.ParseShellInput | crates/canopus-shell/src/main.rs:133-145 | a line starting with a dot is parsed as a command (and fails as one); any other line is a query, kept verbatim |
| Shell.ParseShellInputOfCommand | crates/canopus-shell/src/main.rs:133-145 | a printed command is read back as that command, never as a query |
| Shell.QueriesAreVerbatim | crates/canopus-shell/src/main.rs:137-143 | a line is a query exactly when it does not start with a dot, and then the query is the line itself |
| Shell.Prompt | crates/canopus-shell/src/main.rs:63-71 | the prompt starts with the base address, ends with the input marker, and between them holds "/" and the resource exactly when one is selected |
| Shell.PromptInjective | crates/canopus-shell/src/main.rs:63-71 | different selections give different prompts |
| Shell.QueryArgs | crates/canopus-shell/src/main.rs:53-54 | the arguments are an empty program name followed by the query's whitespace-separated words, which together hold the query minus its whitespace |
| Shell.Evaluate | crates/canopus-shell/src/main.rs:46-61 | only ".quit" stops the loop, ".help" shows the help, a query runs the client with its words, and a bad dot-line is an error |
| BrandNames.Utf8Width | crates/canopus-factory/src/brands.rs:132 | a character takes one to four bytes, and one exactly when it is ASCII |
| BrandNames.Utf8Length | crates/canopus-factory/src/brands.rs:132 | `str::len`: at least one and at most four bytes per character |
| BrandNames.Utf8LengthOfAscii | crates/canopus-factory/src/brands.rs:132 | on ASCII text the byte length is the number of characters |
| BrandNames.CheckBrandName | crates/canopus-factory/src/brands.rs:130-147 | a name is accepted exactly when it is 2 to 100 bytes long and is then kept unchanged; too short is reported before too long, each with its own message |
| BrandNames.AsStrRoundTrip | crates/canopus-factory/src/brands.rs:149-151 | the text of a valid name is accepted again as the same name |
| BrandNames.CheckedNamesAreValid | crates/canopus-factory/src/brands.rs:146 | an accepted name has a valid length and is the input itself |
| BrandNames.MikrotikAccepted | crates/canopus-catalog/src/brands.rs:134-137 | the unit test's name "Mikrotik" is accepted |
| BrandNames.NameOrder | crates/canopus-factory/src/brands.rs:123 | the name order is total, transitive and antisymmetric |
| FactoryBrands.NewBrandName | crates/canopus-factory/src/brands.rs:130-147 | the check's outcome, with a refusal reported as a validation error carrying the check's message |
| FactoryBrands.Returned | crates/canopus-factory/src/brands.rs:121 | the columns `RETURNING` and `SELECT` give back: id, name and both timestamps, without the slug |
| FactoryBrands.BrandFromRow | crates/canopus-factory/src/brands.rs:161-179 | a row becomes a brand exactly when its stored name passes the check again; the other columns are copied |
| BrandNames.ByNameIsTotalOrder | crates/canopus-factory/src/brands.rs:123 | `ORDER BY name ASC` (and the catalog repository's `ORDER BY name`, crates/canopus-catalog-repo/src/lib.rs:89) compares every pair of rows, transitively |
| FactoryBrands.BrandsTable.constructor | crates/canopus-factory/src/brands.rs:93-128 | the table starts empty |
| FactoryBrands.BrandsTable.InsertBrand | crates/canopus-factory/src/brands.rs:93-113 | a refused insert changes nothing and reports the storage error; otherwise one row is appended with the name, its lower-cased slug and the time, and its columns are returned |
| FactoryBrands.BrandsTable.SelectBrands | crates/canopus-factory/src/brands.rs:115-128 | every stored row, once, ordered by name |
| FactoryBrands.InsertFailure | crates/canopus-factory/src/brands.rs:77-84 | a unique violation becomes "already exists" naming the brand; any other storage error is passed on as a storage error |
| FactoryBrands.CreateBrand | crates/canopus-factory/src/brands.rs:67-85 | an invalid name is refused before anything is written; a refused insert leaves the table unchanged and is mapped by the insert-failure rule; otherwise the new row is stored and returned as a brand |
| FactoryBrands.ListBrands | crates/canopus-factory/src/brands.rs:87-91 | the listing succeeds exactly when every stored name passes the check again, and then holds one brand per row, the brand at each position being the conversion of the name-ordered row at that position |
| FactoryBrands.ListBrandsIds | crates/canopus-factory/src/brands.rs:87-91 | the ids of a successful listing are exactly the ids of the stored rows |
| FactoryBrands.ListBrandsOrdered | crates/canopus-factory/src/brands.rs:87-91 | a successful listing is ordered by name |
| FactoryBrands.ListBrandsFirstError | crates/canopus-factory/src/brands.rs:87-91 | a failed listing reports the error of the first row, in name order, whose name fails the check |
| FactoryWeb.KindOf | crates/canopus-factory/src/web/mod.rs:57-67 | each application error keeps its kind and description; a storage error is given as its text |
| FactoryWeb.WebErrorOf | crates/canopus-factory/src/web/mod.rs:69-79 | the response body is the error's kind, and the response is a server error exactly for storage errors |
| FactoryWeb.Status | crates/canopus-factory/src/web/mod.rs:34-41 | every response is a 400 or a 500 |
| FactoryWeb.StatusOfAppError | crates/canopus-factory/src/web/mod.rs:34-79 | storage failures answer 500 and every other error 400 |
| CatalogBrands.NewCatalogBrandName | crates/canopus-catalog/src/brands.rs:59-76 | a name is accepted exactly when it is 2 to 100 bytes long and is kept unchanged; a refusal is a validation error with the too-short or too-long message |
| CatalogBrands.CatalogAsStrRoundTrip | crates/canopus-catalog/src/brands.rs:78-80 | the text of an accepted name is accepted again as the same name |
| CatalogBrands.CatalogMikrotikAccepted | crates/canopus-catalog/src/brands.rs:134-137 | the unit test's name "Mikrotik" is accepted |
| CatalogRepo.FromSqlxErr | crates/canopus-catalog-repo/src/lib.rs:122-136 | a missing row is "record not found", a unique violation "record already exists", and every other failure a storage error carrying its text |
| CatalogRepo.RecordFromRow | crates/canopus-catalog-repo/src/lib.rs:100-120 | a row becomes a record exactly when its stored name passes the check again; the other columns are copied |
| CatalogRepo.FindRow | crates/canopus-catalog-repo/src/lib.rs:38-39 | finds a row exactly when one has the id, and then it is a stored row with that id |
| CatalogRepo.WithoutId | crates/canopus-catalog-repo/src/lib.rs:38-39 | the delete keeps exactly the rows with a different id |
| CatalogRepo.WithoutIdKeepsDistinct | crates/canopus-catalog-repo/src/lib.rs:38-39 | deleting keeps the ids distinct |
| CatalogRepo.IdsOfMembers | crates/canopus-catalog-repo/src/lib.rs:38-39 | an id is stored exactly when some stored row carries it |
| CatalogRepo.CatalogRepository.constructor | crates/canopus-catalog-repo/src/lib.rs:52-98 | the table starts empty |
| CatalogRepo.CatalogRepository.InsertBrand | crates/canopus-catalog-repo/src/lib.rs:52-80 | a refused insert changes nothing and reports the mapped error; otherwise one row is appended and the record holds the very brand given |
| CatalogRepo.CatalogRepository.FindOneAndDeleteBrand | crates/canopus-catalog-repo/src/lib.rs:33-50 | a missing id is "record not found" and changes nothing; otherwise the row is deleted and converted, and the delete stands even when the conversion fails |
| CatalogRepo.CatalogRepository.SelectBrands | crates/canopus-catalog-repo/src/lib.rs:82-98 | a successful listing has one record per row, the record at each position being the conversion of the name-ordered row at that position |
| CatalogRepo.SelectBrandsIds | crates/canopus-catalog-repo/src/lib.rs:82-98 | the ids of a successful listing are exactly the ids of the stored rows |
| CatalogRepo.SortedRows | crates/canopus-catalog-repo/src/lib.rs:84-94 | the selected rows are ordered by name and are the stored rows, each once |
| CatalogRepo.SelectBrandsOrdered | crates/canopus-catalog-repo/src/lib.rs:82-98 | a successful listing is ordered by name |
| CatalogRepo.SortedRowsSameMembers | crates/canopus-catalog-repo/src/lib.rs:84-94 | a row is selected exactly when it is stored |
| CatalogRepo.SelectBrandsFailsOnBadName | crates/canopus-catalog-repo/src/lib.rs:96 | the listing fails exactly when some stored name fails the check |
| CatalogService.CreateBrand | crates/canopus-catalog/src/brands.rs:83-96 | an invalid name is refused before the repository is asked; a refused insert changes nothing; otherwise the brand is stored and returned |
| CatalogService.DeleteBrand | crates/canopus-catalog/src/brands.rs:98-105 | the repository's find-and-delete, passed on unchanged; afterwards the id is gone unless the repository failed |
| CatalogService.ListBrands | crates/canopus-catalog/src/brands.rs:107-114 | the repository's listing, unchanged: it fails exactly when some stored name fails the check, and otherwise holds the converted rows in name order, with exactly the stored ids |
| OldCatalog.CreateBrand | catalog/src/brands.rs:61-74 | an invalid name fails with the check's error; a valid one is handed to the insert and its answer returned |
| OldCatalog.CreateBrandRejectsBadLength | catalog/src/brands.rs:41-58 | whatever the insert does, a name of the wrong length is refused with a validation error |
| CatalogRestApi.KindOf | crates/canopus-catalog-rest-api/src/main.rs:87-97 | each error keeps its variant and its text |
| CatalogRestApi.KindOfInjective | crates/canopus-catalog-rest-api/src/main.rs:87-97 | different errors give different bodies |
| CatalogRestApi.ApiErrorOf | crates/canopus-catalog-rest-api/src/main.rs:99-117 | the body is the error's kind; the response is "not found" exactly for a missing record and a server error exactly for storage errors |
| CatalogRestApi.Status | crates/canopus-catalog-rest-api/src/main.rs:35-45 | a response is 400 exactly for a bad request, 404 exactly for not-found and 500 exactly for an internal error |
| CatalogRestApi.StatusOfCatalogError | crates/canopus-catalog-rest-api/src/main.rs:35-45 | storage failures answer 500, a missing record 404, every other error 400 |
| Sql.ErrorText | crates/canopus-factory/src/web/mod.rs:64 | the text of a storage error: a database error behind the fixed "error returned from database: " prefix, a missing row as its fixed message |
| Sorting.Insert | crates/canopus-factory/src/brands.rs:123 | inserting into a sorted list keeps it sorted and adds exactly the one element |
| Sorting.SortBy | crates/canopus-factory/src/brands.rs:121-123 | `ORDER BY`: the result is sorted by the key and is a permutation of the rows |
| Sorting.SortedPairwise | crates/canopus-factory/src/brands.rs:123 | in a sorted result every earlier row is ordered before every later one |
| Text.IsWhitespace | crates/canopus-definitions/src/tags/tag_title.rs:15 | `char::is_whitespace`, the characters `trim` drops: the Unicode White_Space code points |
| Text.Trim | crates/canopus-definitions/src/tags/tag_title.rs:15 | `str::trim`: the text with its leading and trailing whitespace cut |
| Text.SkipForward | crates/canopus-definitions/src/tags/tag_title.rs:15 | the leading whitespace run `trim` drops: whitespace up to the position, and none at it |
| Text.SkipBackward | crates/canopus-definitions/src/tags/tag_title.rs:15 | the trailing whitespace run `trim` drops: whitespace from the position on, and none just before it |
| Text.TrimBounds | crates/canopus-definitions/src/tags/tag_title.rs:15 | `trim` keeps a slice whose two ends are not whitespace and drops only whitespace on either side |
| Text.TrimIsTrimmed | crates/canopus-definitions/src/tags/tag_title.rs:15 | a trimmed text has no whitespace at either end |
| Text.TrimIsSlice | crates/canopus-definitions/src/remarks/remark_essence.rs:15 | a trimmed text is a contiguous slice of the input |
| Text.TrimParts | crates/canopus-definitions/src/remarks/remark_essence.rs:15 | the input is whitespace, then its trim, then whitespace |
| Text.TrimUnique | crates/canopus-definitions/src/remarks/remark_essence.rs:15 | whitespace around a text without surrounding whitespace trims to exactly that text |
| Text.TrimEmptyIff | crates/canopus-definitions/src/tags/tag_title.rs:9-15 | the trim is empty exactly when the input is all whitespace |
| Text.TrimOfTrimmed | crates/canopus-definitions/src/remarks/remark_essence.rs:15 | a text without surrounding whitespace is its own trim |
| Text.TrimIdempotent | crates/canopus-definitions/src/remarks/remark_essence.rs:15 | trimming twice is trimming once |
| Text.SurroundingWhitespace | crates/canopus-definitions/src/remarks/remark_essence.rs:15 | whitespace added around a text does not change its trim |
| Text.Lower | crates/canopus-definitions/src/tags/tag_title.rs:15 | lower-casing keeps the length |
| Text.LowerIsLower | crates/canopus-definitions/src/tags/tag_title.rs:15 | a lower-cased text has no upper-case letter |
| Text.LowerOfLower | crates/canopus-definitions/src/tags/tag_title.rs:15 | lower-casing a text without upper-case letters changes nothing |
| Text.LowerAppend | crates/canopus-definitions/src/tags/tag_title.rs:15 | lower-casing works character by character |
| Text.LowerTrimCommute | crates/canopus-definitions/src/tags/tag_title.rs:15 | lower-casing then trimming equals trimming then lower-casing |
| Text.LessIrreflexive | crates/canopus-definitions/src/tags/tag_title.rs:4-5 | no text is ordered before itself |
| Text.LessTransitive | crates/canopus-definitions/src/tags/tag_title.rs:4-5 | the text order is transitive |
| Text.Less | crates/canopus-definitions/src/tags/tag_title.rs:4-5 | the derived `Ord` of a `String`: lexicographic by code point, a proper prefix first |
| Text.LessTotal | crates/canopus-definitions/src/tags/tag_title.rs:4-5 | any two different texts are ordered one way or the other |
| Text.LessAsymmetric | crates/canopus-definitions/src/tags/tag_title.rs:4-5 | two texts are never ordered both ways |
| Text.Words | crates/canopus-shell/src/main.rs:53 | `split_whitespace`: the whitespace-free runs of the text, in order |
| Text.Word | crates/canopus-shell/src/main.rs:53 | the longest whitespace-free prefix, stopped by whitespace or the end of the text |
| Text.WordsAreWords | crates/canopus-shell/src/main.rs:53 | `split_whitespace` yields only non-empty words without whitespace |
| Text.WordsCoverInput | crates/canopus-shell/src/main.rs:53 | joining the words back together gives the input with its whitespace removed: no character is lost |
| Stores.Store.constructor | crates/canopus-operations/src/remarks.rs:25-43 | the store starts with no remarks and no tags |
| Tables.Database.constructor | crates/canopus-repository/src/remarks.rs:15-28 | all tables start empty |

## Left out

- Network and HTTP transport are not part of this model: the Rocket route handlers, the reqwest calls and URL joining. Only the pure conversions around them are modelled.
- UUID parsing helpers are left out, and so is the reqwest error classification; both are thin wrappers over library predicates.
- Process start-up and configuration are left out: environment, `.env` and config files, and connecting to the database.
- Terminal, file and process I/O are left out: the shell's read/print loop (`Shell.Evaluate` takes the line the loop has already trimmed), session file loading and saving (so `reset` is only its `Session::default()`), the external editor, and the TCP test client.
- JSON and CSV serialisation (`serde_json`, `csv`) is left out, including the JSON `Display` of pages, remarks and tags.
- Transactions, pools and isolation levels are not modelled. Database-generated ids and `DEFAULT` timestamps are parameters.
- Unique constraints are not derived from any schema. A refused insert arrives as the `fault` parameter.
- The write statements of `Tables.Database` other than `CreateTag` and `CreateTagVerbatim` (`DeleteTag`, `UpdateTag`, `CreateRemark`, `DeleteRemark`, `UpdateRemark`, `CreateRemarkTag`, `DeleteRemarkTag`, `DeleteUnusedRemarksTags`) are modelled as infallible: a storage error of the `execute` call (a lost connection, a constraint violation on `remarks_tags`) is not modelled; their only outcomes are the affected-row count or the returned row.
- Stores.Store.UpdateTag: the implementation of the `UpdateTag` trait is not part of this model; the store follows the repository's `UPDATE tags ... updated_at = DEFAULT` and writes the new `updated_at` back into the tag it was given, which the trait's `&mut Tag` allows.
- Read failures of `SELECT` statements other than a missing row are not modelled.
- The pagination cursor codec and the keyset listing query are not part of this model. Only the page size 3 and the URL-safe alphabet are. So `list_remarks` and `list_tags` in the operations and protocol crates are not modelled; they pass the repository's page through.
- The protocol crate's `delete_remark`, `get_remark` and `update_remark` are not modelled; they pass a call through to the repository unchanged.
- `get_remark` in the operations crate is not modelled; it is a pass-through like `TagOperations.GetTag`.
- The trait-based repositories of the operations crate are stood in for by one in-memory `Stores.Store`. Its only failure is a missing id, so storage failures of those traits are not modelled.
- AppErrors.InvalidArgumentError: `ApplicationError::invalid_argument` is called with a reason only. Its body is not in the shown source, so the model gives the argument as the empty text.
- The factory's error enum has six variants, but its web layer matches only three (validation, already exists, storage). `FactoryBrands.AppError` holds those three.
- The catalog library's `error.rs` is not part of this model beyond the variants the catalog crates construct and match (`CatalogBrands.CatalogError`).
- Text.Lower: lower-cases ASCII letters only, not the full Unicode case mapping of `to_lowercase`.
- Formatter.RowPresenterOf: measures and cuts the essence in characters, where the source uses UTF-8 bytes. The two agree on ASCII text. The source's `truncate(37)` panics when byte 37 falls inside a multi-byte character, and that panic is not modelled.
- BrandNames.ByName: both brand listings are taken to be ordered by code point, as under PostgreSQL's `C` collation. The `ORDER BY name` of the two repositories sorts by the column's collation, which no part of this model sets; under a locale collation such as `en_US.UTF-8` the order differs ("apple" before "Banana"), and `FactoryBrands.ListBrandsOrdered`, `CatalogRepo.SortedRows` and `CatalogRepo.SelectBrandsOrdered` state the code-point order only.
- Sorting.SortBy: the order of rows with equal sort keys is whatever the insertion sort gives. The database promises no tie order, so callers rely only on sortedness and the permutation.
- CatalogRepo.CatalogRepository.SelectBrands: a read failure of the `SELECT` itself is not modelled; only the re-check of each stored name can fail the call.
- The entity getters (`id`, `essence`, `created_at` and the like) and `Deref` impls are not modelled separately; they are datatype or class fields. The session's getters are modelled, as `Sessions.Session.IsChanged`, `RemarksToken` and `TagsToken`.
