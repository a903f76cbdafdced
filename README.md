# Basecamp client core, modelled in Dafny

This project models the core of `lib/basecamp.rb`, a Ruby client for the Basecamp
project-management service. The service speaks two protocols:

- A REST protocol. Typed resources (messages, comments, todo lists, todo items,
  time entries) are addressed under their parent resources by a path prefix.
- A legacy protocol. The server returns loosely typed nested XML or YAML. The client:
  - parses the body into a tree of hashes, arrays and strings;
  - typecasts that tree into native values, using the `type` attributes it carries;
  - wraps the result in `Record` objects whose attributes are read like methods.

The model covers:

- `typecast_value` and `translate_entities`, as functions over a parsed tree. The tree is `Tree.Node`; the native values are `Tree.Value`.
- Ruby's `String#strip`, `String#to_i`, `Integer#to_s`, `chomp`, `tr` and `String#[]`, as far as the core uses them (`RubyString`).
- `Record`, as a class:
  - its ordered key list and its backing hash are fields;
  - `[]` expands a nested hash into child records and writes them back in place.
- The resource path prefixes, `prefix_source`, `prefix` and `prefix_options` (`Paths`).
- `TodoList.all`'s filter (`TodoLists`).
- The session:
  - `establish_connection!` and `connection`, in the class `Sessions.Session`;
  - the per-client `use_xml` flag and `content_type`, in `LegacyClient.Basecamp`.
- `request` and its 2xx check, and `record` and `records` (`LegacyClient`).
- The legacy paths for accounts, projects, categories, companies, people and milestones (`LegacyPaths`).
- `Attachment`, with `save` and `create` (`Attachments`).

Ruby exceptions are `Err(...)` values of `Tree.Failure`:

- a `raise` with a message becomes `CannotTypecast`, `RemoteError`, `NotConnected` or `SaveFailed`;
- the `ArgumentError` in `TodoList.all` becomes `InvalidFilter`;
- a `NoMethodError` raised by `gsub` on a `__content__` that is not a string becomes `ContentNotText`;
- any other `NoMethodError`, or a `TypeError`, raised by sending a method to a value of the wrong class becomes `NoMethod(name)`.

Ruby hashes keep insertion order from Ruby 1.9 on, the version this model assumes, and the client relies on it (`keys.first`, `values.first`). So both kinds of hash are ordered association lists. "Well formed" means no key repeats.

A few places where the code and its design notes differ; the model follows the code:

- `prefix(options)` joins the segments in the order of the options the caller passes, not in the declared parent order.
- It also doubles the slash between segments (see Findings).
- `Attachment#save` accepts only the code `"200"`, not every 2xx. Its id is read from the body's `upload/id`.
- `request` typecasts the parsed body itself, before `record` or `records` see it.

## Model

| member | source | states |
|---|---|---|
| Typecaster.Typecast | lib/basecamp.rb:552-595 | `typecast_value`, one branch per case in the source's order; its behaviour is stated by `TypecastCollapsed` and `TypecastWellFormed` (whole results) and by `ContentWins`, `ContentMustBeText`, `EmptyTypedTag`, `NilAttribute`, `ArrayUnwrap`, `GeneralHash`, `ArrayCollapse` and `TextCannotTypecast` (one per branch) |
| Typecaster.TypecastCollapsed | lib/basecamp.rb:552-595 | every successful result is collapsed: no empty hash and no array of fewer than two elements survives, at any depth |
| Typecaster.FieldsKeepKeys | lib/basecamp.rb:579-583 | the typecast hash keeps exactly the source keys, in order |
| Typecaster.FieldsSpec | lib/basecamp.rb:579-583 | the hash typecast succeeds iff every value's does; then each field is the typecast of its entry; otherwise the error is that of the first failing value |
| Typecaster.EachSpec | lib/basecamp.rb:585-586 | `map!` succeeds iff every element's typecast does; then it is pointwise; otherwise the error is the first failing element's |
| Typecaster.ArrayCollapse | lib/basecamp.rb:585-591 | an array fails iff some element fails; zero elements give nil; one element gives that element's value; two or more give the list of typecasts |
| Typecaster.ContentWins | lib/basecamp.rb:555-563 | a hash with string `__content__` gives the entity-translated, stripped content, coerced by its `type`, whatever else the hash holds |
| Typecaster.CoerceSpec | lib/basecamp.rb:557-563 | `integer` is `to_i`, `boolean` is true exactly for "true", `datetime` and `date` keep the text, and any other type (or none) gives the string |
| Typecaster.ContentMustBeText | lib/basecamp.rb:555-556 | a `__content__` that is not a string fails |
| Typecaster.IntegerContent | lib/basecamp.rb:555-558 | an integer content tag padded with whitespace reads back the integer written in it |
| Typecaster.UntypedContent | lib/basecamp.rb:555-563 | an untyped content tag gives the translated, stripped string |
| Typecaster.TextContent | lib/basecamp.rb:555-563 | the content tag of an escaped stripped string gives that string back |
| Typecaster.EmptyTypedTag | lib/basecamp.rb:569-570 | a hash whose only key is `type` gives nil |
| Typecaster.NilAttribute | lib/basecamp.rb:571-572 | a hash without content and with `nil="true"` gives nil |
| Typecaster.ArrayUnwrap | lib/basecamp.rb:576-578 | a two-key hash with `type="array"` typecasts as the hash without `type`, that is, as its other value under its other key |
| Typecaster.RemoveTypeOfPair | lib/basecamp.rb:577 | deleting `type` from a well-formed two-key hash leaves exactly the other entry |
| Typecaster.SingleEntry | lib/basecamp.rb:579-583 | a one-entry plain hash gives a one-field mapping of its typecast value, or that value's error |
| Typecaster.GeneralHash | lib/basecamp.rb:579-583 | a hash in the general branch succeeds iff every value typecasts; it then keeps every key in order and holds each value's typecast under it |
| Typecaster.TextCannotTypecast | lib/basecamp.rb:592-593 | a bare string cannot be typecast |
| Typecaster.RemoveKeyWellFormed | lib/basecamp.rb:577 | deleting a key keeps a well-formed hash well formed |
| Typecaster.TypecastWellFormed | lib/basecamp.rb:552-595 | typecasting a tree with distinct keys yields values with distinct keys at every level |
| Typecaster.FieldWellFormed | lib/basecamp.rb:579-583 | each value of a typecast hash is well formed |
| Typecaster.FieldKeysDistinct | lib/basecamp.rb:579-583 | the typecast hash has distinct keys when the source hash does |
| Typecaster.ArrayWellFormed | lib/basecamp.rb:585-591 | the typecast array is well formed when its elements' typecasts are |
| Entities.TranslateEntities | lib/basecamp.rb:597-603 | `translate_entities`, the five `gsub` passes in the source's order; stated by `TranslateShrinks`, `NoAmpersandUnchanged`, `DecodeEscaped` (inverse of an independent escape) and `NoDoubleDecoding` |
| Entities.ReplaceAllShrinks | lib/basecamp.rb:598-602 | a `gsub` whose replacement is no longer than its pattern never lengthens the string |
| Entities.TranslateShrinks | lib/basecamp.rb:597-603 | translating entities never lengthens the string |
| Entities.NoAmpersandUnchanged | lib/basecamp.rb:597-603 | text without `&` is unchanged |
| Entities.DecodeEscaped | lib/basecamp.rb:597-603 | translating the escaped form of any string gives the string back |
| Entities.NoDoubleDecoding | lib/basecamp.rb:597-603 | `&amp;lt;` becomes `&lt;`, not `<`, because `&amp;` is replaced last |
| RubyString.LStrip | lib/basecamp.rb:556 | the result is a suffix of the input; everything cut is whitespace; the result does not start with whitespace |
| RubyString.RStrip | lib/basecamp.rb:556 | the result is a prefix of the input; everything cut is whitespace or NUL; the result does not end with either |
| RubyString.Strip | lib/basecamp.rb:556 | `strip` as `lstrip` then `rstrip`; stated by `StripSpec` (the maximal slice with no surrounding whitespace), `StripIdempotent` and `StripPadded` |
| RubyString.StripSpec | lib/basecamp.rb:556 | `strip` is the middle slice between the cut leading and trailing whitespace |
| RubyString.StripIdempotent | lib/basecamp.rb:556 | stripping twice equals stripping once |
| RubyString.StripPadded | lib/basecamp.rb:556 | stripping whitespace padding recovers a stripped, non-empty string |
| RubyString.ToI | lib/basecamp.rb:558 | `to_i`: leading whitespace, an optional sign, then the digit run, 0 without digits; stated by `ToIOfIntToS` (inverse of `to_s`) and `ToINoDigits` |
| RubyString.ToIOfIntToS | lib/basecamp.rb:558 | `to_i` reads back every integer `to_s` writes |
| RubyString.ToINoDigits | lib/basecamp.rb:558 | a string without leading digits or sign reads as 0 |
| RubyString.Chomp | lib/basecamp.rb:168 | `chomp(suffix)` removes a present suffix and otherwise leaves the string unchanged |
| RubyString.ChompAppended | lib/basecamp.rb:168 | chomping an appended suffix gives the original string |
| RubyString.Tr | lib/basecamp.rb:384 | `tr` keeps the length and replaces exactly the occurrences of one character |
| RubyString.ContainsSpec | lib/basecamp.rb:539 | the substring test `String#[]` uses holds iff the part occurs at some index |
| Records.Dashify | lib/basecamp.rb:383-385 | the result has the name's length, has no `_`, and keeps every other character |
| Records.DashifyIdempotent | lib/basecamp.rb:383-385 | dashifying twice equals dashifying once |
| Records.StoreOf | lib/basecamp.rb:334-336 | a record's backing hash has exactly the keys of the value it wraps |
| Records.FieldLookupAt | lib/basecamp.rb:338-351 | in a hash with distinct keys, looking up the i-th key gives the i-th value |
| Records.StoreOfField | lib/basecamp.rb:334-336 | every field of the wrapped hash is stored raw under its key |
| Records.NewRecords | lib/basecamp.rb:344 | `map { Record.new(tag, v) }` gives one fresh, valid record per value, in order, each tagged `tag` and holding its value |
| Records.Record.constructor | lib/basecamp.rb:334-336 | the new record carries the type tag and holds the given hash, keys in order |
| Records.Record.Get | lib/basecamp.rb:338-351 | reads the dashified key. A missing key gives nil. A non-hash comes back as stored. A one-key hash of an array gives fresh child records tagged with the inner key, one per element. Any other hash gives one fresh child record tagged with the key. The expansion replaces that one slot, and the keys never change |
| Records.Record.Id | lib/basecamp.rb:353-355 | `id` is the `id` slot, nil when absent |
| Records.Record.Attributes | lib/basecamp.rb:357-359 | `attributes` lists exactly the record's keys, each once |
| Records.Record.RespondTo | lib/basecamp.rb:361-363 | a record responds to a name iff the superclass does or the dashified name is a key |
| Records.Record.MethodMissing | lib/basecamp.rb:365-371 | a call with no arguments and no block to a held key reads that key as `[]` does: only that slot is replaced, by the stored non-hash value itself or by fresh valid records over the stored hash (one per element of a collection, else one tagged with the key); any other call raises `NoMethodError` and changes nothing |
| Records.ReadTwice | lib/basecamp.rb:338-351 | a second read of a key gives the same slot as the first (expansion is memoised) |
| Paths.PrefixSource | lib/basecamp.rb:162-164 | `prefix_source` as written; stated by `PrefixOfPlaceholders` (it is `prefix` of placeholder options) and `CommentPrefixSource` |
| Paths.SourceParts | lib/basecamp.rb:162-164 | one `plural/:parent_id` segment per declared parent, in order |
| Paths.OptionParts | lib/basecamp.rb:166-172 | one `plural/value` segment per option, in the options' order |
| Paths.Prefix | lib/basecamp.rb:166-172 | with no options the prefix is the inherited one |
| Paths.CorrectedPrefix | lib/basecamp.rb:166-172 | with no options the corrected prefix is the inherited one too |
| Paths.PrefixOptions | lib/basecamp.rb:175-177 | a resource with an id has no prefix options; a new one keeps the inherited ones |
| Paths.JoinAsWrittenAppend | lib/basecamp.rb:163 | the source's `join` of segments distributes over concatenation |
| Paths.PrefixAppend | lib/basecamp.rb:166-172 | the prefix for `a + b` is the prefix for `a` followed by that for `b` |
| Paths.PlaceholderParts | lib/basecamp.rb:162-172 | the source template's segments are the option segments of `:parent_id` placeholders |
| Paths.PrefixOfPlaceholders | lib/basecamp.rb:162-172 | `prefix` of the placeholders equals `prefix_source`, both as written and corrected |
| Paths.AsWrittenDoublesSlash | lib/basecamp.rb:166-172 | as written, any prefix of two or more segments contains `//` |
| Paths.JoinCorrectedSingleSlashes | lib/basecamp.rb:166-172 | the corrected join of slash-free segments never contains `//` |
| Paths.CorrectedPrefixSingleSlashes | lib/basecamp.rb:166-172 | the corrected prefix of options with slash-free names and values never contains `//` |
| Paths.CorrectedAgreesOnOneSegment | lib/basecamp.rb:166-172 | with one option the corrected prefix is the source's |
| Paths.TwoIdOptions | lib/basecamp.rb:166-172 | two `_id` options give `/ps/v//qs/w/` as written and `/ps/v/qs/w/` corrected |
| Paths.ProjectAndTodoItem | lib/basecamp.rb:166-172 | a time entry's parents (line 279) as options `project_id=9, todo_item_id=3` give `/projects/9//todo_items/3/` as written and `/projects/9/todo_items/3/` corrected |
| Paths.CommentPrefixSource | lib/basecamp.rb:162-164 | for the comment's three parents (declared at line 230) the template as written contains `//`, and the corrected one has no `//` |
| TodoLists.CompleteFilter | lib/basecamp.rb:238-244 | nil, true and false give a filter among `all`, `finished`, `pending`; anything else raises `ArgumentError` |
| TodoLists.FilterMeaning | lib/basecamp.rb:239-243 | `all` iff nil, `finished` iff true, `pending` iff false |
| TodoLists.FilterInjective | lib/basecamp.rb:239-243 | distinct accepted arguments give distinct filters |
| TodoLists.AllParams | lib/basecamp.rb:238-247 | the query has `project_id` then `filter`; it fails exactly when the filter does |
| Sessions.SiteUrl | lib/basecamp.rb:401 | the site URL is the scheme chosen by `use_ssl` followed by the site |
| Sessions.SiteUrlInjective | lib/basecamp.rb:401 | distinct sites or SSL choices give distinct URLs |
| Sessions.Session.constructor | lib/basecamp.rb:390-409 | a fresh session has no connection |
| Sessions.Session.EstablishConnection | lib/basecamp.rb:393-404 | records site, user, password and SSL flag, gives the resources the same credentials and the site URL, and sets the connection |
| Sessions.Session.GetConnection | lib/basecamp.rb:406-408 | `connection` is the established one, and raises exactly when none is |
| Sessions.ConnectThenGet | lib/basecamp.rb:393-408 | after `establish_connection!`, `connection` returns that connection |
| LegacyClient.StatusOk | lib/basecamp.rb:519 | the 2xx check of `request`; stated by `StatusOkRange` and `StatusOfCode` |
| LegacyClient.StatusOkRange | lib/basecamp.rb:519 | `code.to_i / 100 == 2` holds iff the code reads as 200 to 299 |
| LegacyClient.StatusOfCode | lib/basecamp.rb:519 | a numeric code passes iff it lies in 200 to 299 |
| LegacyClient.Request | lib/basecamp.rb:516-525 | no connection raises; a non-2xx status raises with message and code; a 2xx status gives the typecast body, always collapsed |
| LegacyClient.RequestWellFormed | lib/basecamp.rb:516-525 | a well-formed body gives a well-formed result |
| LegacyClient.Index | lib/basecamp.rb:539 | `result[node]` gives the hash's value or nil, or the part on a string, and raises on anything else |
| LegacyClient.IndexFinds | lib/basecamp.rb:539 | indexing a well-formed hash by its i-th key gives its i-th value |
| LegacyClient.SingleRecordShape | lib/basecamp.rb:529-532 | nil, false or an empty result give no record; a non-empty hash gives its first key and value; other results raise |
| LegacyClient.FirstValue | lib/basecamp.rb:538 | `values.first` raises exactly on a non-hash |
| LegacyClient.CollectionRows | lib/basecamp.rb:537-542 | a non-hash result raises; a missing node gives no rows |
| LegacyClient.RowsWellFormed | lib/basecamp.rb:537-542 | every row of a well-formed result is well formed |
| LegacyClient.RecordWellFormed | lib/basecamp.rb:529-532 | the single record's value is well formed |
| LegacyClient.TypecastSingleDocument | lib/basecamp.rb:520-521 | a root element holding one item typecasts to a one-field mapping |
| LegacyClient.RecordOfDocument | lib/basecamp.rb:529-532 | `record` of a one-element document gives that element under its name |
| LegacyClient.TypecastCollectionDocument | lib/basecamp.rb:520-521 | a typed-array document typecasts to its root over the node over the typecast items |
| LegacyClient.RowsOfCollection | lib/basecamp.rb:537-542 | `records` of a document with two or more items gives their typecasts, in order |
| LegacyClient.RowsOfSingletonCollection | lib/basecamp.rb:537-542 | a single item is wrapped in a one-row array |
| LegacyClient.RowsOfEmptyCollection | lib/basecamp.rb:537-542 | an empty collection gives no rows |
| LegacyClient.RecordResult | lib/basecamp.rb:529-532 | what `record` builds its record from: the request's failure, else `SingleRecordShape` of the result; stated by `RecordOfDocument`, `RecordWellFormed` and `ErrorStatusFails`, and used as the specification of `Basecamp.FetchRecord` |
| LegacyClient.RowsResult | lib/basecamp.rb:537-542 | what `records` builds its records from: the request's failure, else `CollectionRows` of the result; stated by `RowsOfCollection`, `RowsOfSingletonCollection`, `RowsOfEmptyCollection` and `ErrorStatusFails`, and used as the specification of `Basecamp.FetchRecords` and `Basecamp.CreateMilestone` |
| LegacyClient.ErrorStatusFails | lib/basecamp.rb:516-542 | a non-2xx status makes both `record` and `records` raise with the message and code |
| LegacyClient.Basecamp.constructor | lib/basecamp.rb:411-413 | a new client does not use XML |
| LegacyClient.Basecamp.ContentType | lib/basecamp.rb:548-550 | XML content type iff `use_xml`, YAML otherwise |
| LegacyClient.Basecamp.SetUseXml | lib/basecamp.rb:388 | the writer sets the flag |
| LegacyClient.Basecamp.FetchRecord | lib/basecamp.rb:529-532 | sends the GET and returns nil or a fresh record tagged with the first key and holding the first value, exactly as `record` specifies |
| LegacyClient.Basecamp.FetchRecords | lib/basecamp.rb:537-542 | sends the GET and returns one fresh record per row, tagged with the node, exactly as `records` specifies |
| LegacyClient.Basecamp.CreateMilestone | lib/basecamp.rb:478-487 | posts one milestone through `create_milestones`; fails with exactly the failure of that request, else returns a fresh valid record over the first returned milestone, or nil when none is returned |
| LegacyPaths.Account | lib/basecamp.rb:419-421 | `account`: a single record from `/account.xml`, no parameters |
| LegacyPaths.Projects | lib/basecamp.rb:424-426 | `projects`: `project` rows from `/projects.xml` |
| LegacyPaths.MessageCategories | lib/basecamp.rb:429-431 | `message_categories`: `post-category` rows under the project; the project id is determined by the path (`ProjectRoutesById`) |
| LegacyPaths.FileCategories | lib/basecamp.rb:434-436 | `file_categories`: `attachment-category` rows under the project; the project id is determined by the path (`ProjectRoutesById`) |
| LegacyPaths.Companies | lib/basecamp.rb:443-445 | `companies`: `company` rows from `/companies.xml` |
| LegacyPaths.Company | lib/basecamp.rb:448-450 | `company(id)`: one record whose path determines the id (`SingleRoutesByIdInjective`) |
| LegacyPaths.People | lib/basecamp.rb:454-458 | `people`: `person` rows, nested under the project when one is given (`PeopleNesting`) |
| LegacyPaths.Person | lib/basecamp.rb:461-463 | `person(id)`: one record whose path determines the id and reads it back (`SingleRoutesByIdInjective`) |
| LegacyPaths.CompleteMilestone | lib/basecamp.rb:470-472 | `complete_milestone(id)`: its path determines the id (`SingleRoutesByIdInjective`) and differs from every other milestone action (`MilestoneActionsDistinct`) |
| LegacyPaths.CreateMilestones | lib/basecamp.rb:484-486 | `create_milestones`: every milestone in one `milestone` parameter; the project id is determined by the path (`ProjectRoutesById`) |
| LegacyPaths.DeleteMilestone | lib/basecamp.rb:489-491 | `delete_milestone(id)`: its path determines the id and differs from every other milestone action (`SingleRoutesByIdInjective`, `MilestoneActionsDistinct`) |
| LegacyPaths.Milestones | lib/basecamp.rb:495-497 | `milestones`: `milestone` rows with `find` defaulting to `all` (`MilestoneDefaults`); the project id is determined by the path (`ProjectRoutesById`) |
| LegacyPaths.UncompleteMilestone | lib/basecamp.rb:500-502 | `uncomplete_milestone(id)`: its path determines the id and differs from every other milestone action (`SingleRoutesByIdInjective`, `MilestoneActionsDistinct`) |
| LegacyPaths.UpdateMilestone | lib/basecamp.rb:505-509 | `update_milestone`: the data and both move flags, defaulting to false (`MilestoneDefaults`); its path differs from every other milestone action (`MilestoneActionsDistinct`) |
| LegacyPaths.ProjectRoutesById | lib/basecamp.rb:429-497 | the category, milestone-list and milestone-creation paths of two projects are equal only when the project ids are |
| LegacyPaths.SingleRoutesByIdInjective | lib/basecamp.rb:449-503 | company, person and milestone action paths determine their id, which `to_i` reads back |
| LegacyPaths.MilestoneActionsDistinct | lib/basecamp.rb:471-510 | the complete, delete, uncomplete and update paths never coincide |
| LegacyPaths.PeopleNesting | lib/basecamp.rb:455-459 | people of a project are the company's people path nested under `/projects/:id`, node `person` |
| LegacyPaths.MilestoneDefaults | lib/basecamp.rb:496-510 | `milestones` defaults to `find=all`; `update_milestone` defaults both move flags to false |
| Attachments.UploadId | lib/basecamp.rb:323 | reading `['upload']['id']` of a non-hash, non-string document raises |
| Attachments.UploadIdOfDocument | lib/basecamp.rb:323 | an `<upload><id/></upload>` reply yields its id |
| Attachments.UploadIdMissing | lib/basecamp.rb:323 | a reply without `upload` raises on the second `[]` |
| Attachments.Attachment.constructor | lib/basecamp.rb:303-305 | a new attachment keeps its name, content and type, and has no id |
| Attachments.Attachment.Attributes | lib/basecamp.rb:307-309 | `file`, `original_filename`, `content_type`, holding id, name and type |
| Attachments.Attachment.Save | lib/basecamp.rb:319-328 | posts the content to `/upload`. Only code "200" saves, setting the id from the reply. Any other code, or a failed read of the id, raises and leaves the id unchanged. No connection raises |
| Attachments.Create | lib/basecamp.rb:297-301 | a fresh attachment with the default type, saved at once; it has an id iff the save succeeded |
| Attachments.SaveStricterThanRequest | lib/basecamp.rb:322 | the only code `save` accepts, "200", also passes the 2xx check of `request` (line 519), and some code passes that check without being accepted by `save` |
| Attachments.UploadAnsweredCreated | lib/basecamp.rb:319-328 | an upload answered "201" raises `SaveFailed` with that message and code and leaves the id unset, while `request` given the same reply returns the typecast body |

## Left out

- The HTTP transport (`Basecamp::Connection`, lines 119-150), TLS and authentication. A reply is a parameter of each operation, and the sent request is returned as a value.
- `XmlSimple.xml_in`, `Hash.from_xml` and YAML parsing. A body is given already parsed, as a `Tree.Node` for `request` and as a `Tree.Value` for the upload reply.
- `convert_body`, `to_yaml`, `to_legacy_xml` and `Attachment#to_xml`. Request parameters are kept as an ordered list of fields.
- `Time.parse` and `Date.parse`: the model keeps the stripped text in `Time` and `Date` values. The `ArgumentError` these raise on text they cannot parse (lib/basecamp.rb:560-561) is not modelled, so a `datetime` or `date` content always typecasts successfully.
- Paths.Pluralize: only appends "s". That is right for every resource name this library declares, not for Rails' inflector in general.
- The ActiveResource behaviour each resource inherits (`find`, `save`, `destroy`, the inherited `prefix` with no options). The inherited prefix is a parameter of `Prefix`.
- The REST queries built on it: `Message.list`, `Message.archive`, `comments`, `todo_items`, `complete!`, `uncomplete!`, `TimeEntry.all` and `TimeEntry.report`. Each is one `find` call whose only logic is the path it builds. `TodoList.all`'s filter is modelled.
- `Record#to_s`, `Record#inspect` and `Attachment#inspect`: formatting only.
- The `Symbol#[]` patch (lines 607-611) that lets XML serialisation treat symbols as strings.
- Records.StoreOf: a record built over a value that is not a hash is modelled with no attributes. In Ruby its reads would go to that value's own `[]` and `keys`.
- Records.Record.RespondTo: the superclass's answer is a parameter, because Ruby's own method table is not modelled.
- Records.Record.MethodMissing: asks `RespondTo` with the superclass answering `false`. Ruby only reaches `method_missing` for a name the object has no method for, so the inherited answer there is false for every name except ones added to `Object` elsewhere.
- LegacyPaths: record ids are `int`. The source interpolates any object through `to_s`.
- RubyString.ToI: reads ASCII decimal text only. The `0d`/`0D` prefix and the `_` separators that Ruby's base-10 `to_i` also accepts are not modelled, so `"0d12"` reads as 0 here and as 12 in Ruby.
- RubyString.Strip: strips ASCII whitespace and NUL only.
- The application under `app/`, the database schema and the tests are not part of this model.

## Findings

| source | as written | input that shows it | evidently intended | confidence | as-written member | corrected member |
|---|---|---|---|---|---|---|
| lib/basecamp.rb:166-172 | each option becomes `/plural/value/` and the segments are joined with nothing between them, so the slashes of neighbouring segments double | a time entry's parents (line 279) as options `project_id => 9, todo_item_id => 3` give `/projects/9//todo_items/3/` | `/projects/9/todo_items/3/`, one slash between segments | not executed | Paths.ProjectAndTodoItem | Paths.CorrectedPrefixSingleSlashes |
| lib/basecamp.rb:162-164 | `prefix_source` builds each parent as `/plural/:parent_id/` and joins them the same way | `Comment`'s declared parents `post, milestone, todo_item` give `/posts/:post_id//milestones/:milestone_id//todo_items/:todo_item_id/` | one slash between neighbouring segments; a comment has one parent (lines 213-227), so the template is a list of alternatives that only the inherited ActiveResource code reads | not executed; its effect on a request depends on that inherited code and is unverified | Paths.CommentPrefixSource | Paths.CorrectedPrefixSingleSlashes |
