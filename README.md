# Kinetic Core bridge adapter, modelled in Dafny

This project models the logic of the Kinetic Core bridge adapter in Dafny and proves properties of it. The adapter answers bridge `count`, `retrieve` and `search` requests by querying a Kinetic Core space over its REST API. The model covers the request building and result shaping on both sides of each call. The HTTP calls themselves are parameters.

What is modelled, module by module:

- **Version 2 adapter**
  - `QualificationParser`: splits a qualification into the API path and its query parameters, and escapes parameter values.
  - `QueryBuilder`: `buildQuery` of both API helpers, which merges the implicit `include` names, adds a default `limit` and fails on a repeated parameter.
  - `V2Records`: `createRecord` / `createRecords` of the version 2 helper, which read plain and bracketed (`values[Name]`, `attributes[Name]`) fields.
  - `V2Adapter`: the structure mappings, `addImplicitIncludes`, and the three `paginationSupported` checks.
  - `V2Search`: the parameters that `count`, `retrieve` and `search` send, and the decision whether the server can honour the order.
  - `V2Results`: the response handling of the helper and the adapter, including the adapter's catch-all for malformed responses.
  - `SubmissionComparator`: the comparator that orders submissions by a list of fields.
- **Version 1 helpers** (users, submissions, datastore records, forms and the generic API helper)
  - `Brackets`: the two uses of the `(.*?)\[(.*?)\]` pattern.
  - `Attributes`: attribute and child-value lookup.
  - `Projection`: building records from JSON objects.
  - `Wildcard`: the `%` wildcard patterns, as a small matcher over tokens.
  - `Qualifiers`: the matcher lists.
  - `UserFilter` and `SubmissionFilter`: the in-memory filters.
  - `Ordering` and `Sorting`: the record sort, as a stable in-place insertion sort against a specification.
  - `V1Query`: query reading and request building for submission and record searches and counts, including the page-counting loop.
  - `V1Search`: sort-or-warn on search results, and the `include` parameter of the user search.
  - `OffsetPaging`: offset/limit paging of the form and API helpers.
- **Shared values**
  - `Base`: options, results and errors.
  - `Strings`: Java's `split`, `trim` and `compareTo`, 32-bit wrap-around, and decimal text.
  - `Json`: a JSON value type.
  - `Records`: insertion-ordered maps.

Java exceptions are modelled as `Err` results that stop the operation. Loops are imperative methods. Each one is proved equal to a recursive function, and that function's properties are proved as lemmas.


## Model

| member | source | states |
|---|---|---|
| QualificationParser.ParsePath | src/main/java/com/kineticdata/bridgehub/adapter/kineticcore/v2/KineticCoreQualificationParser.java:47-52 | The path is a prefix of the query text with no `?` in it, and it is followed either by the end of the text or by the first `?`. |
| QualificationParser.FirstCut | src/main/java/com/kineticdata/bridgehub/adapter/kineticcore/v2/KineticCoreQualificationParser.java:30 | The next place the look-ahead split `&(?=[^&]*?=)` cuts: an `&` that has an `=` before the next `&`, with no such place skipped. |
| QualificationParser.SplitQueries | src/main/java/com/kineticdata/bridgehub/adapter/kineticcore/v2/KineticCoreQualificationParser.java:30 | The parameter texts are never empty as a list, and joining them with `&` gives the text after the `?` back. |
| QualificationParser.SplitQueriesShape | src/main/java/com/kineticdata/bridgehub/adapter/kineticcore/v2/KineticCoreQualificationParser.java:30 | No parameter text contains a cutting `&`, and every text after the first starts a `name=` pair, so an `&` not followed by `name=` stays inside its value. |
| QualificationParser.SplitPair | src/main/java/com/kineticdata/bridgehub/adapter/kineticcore/v2/KineticCoreQualificationParser.java:36-38 | Splitting a parameter text at its first `=` fails with an index error exactly when the text has no `=`. |
| QualificationParser.PairsOf | src/main/java/com/kineticdata/bridgehub/adapter/kineticcore/v2/KineticCoreQualificationParser.java:31-41 | A successful parse has one pair per parameter text; a failure is an index error. |
| QualificationParser.PairsOfFacts | src/main/java/com/kineticdata/bridgehub/adapter/kineticcore/v2/KineticCoreQualificationParser.java:31-41 | The parse succeeds exactly when every parameter text has an `=`, and then the i-th pair is the trimmed name and the trimmed rest of the i-th text, in query order. |
| QualificationParser.PairsOfOk | src/main/java/com/kineticdata/bridgehub/adapter/kineticcore/v2/KineticCoreQualificationParser.java:36-38 | The parse succeeds exactly when every parameter text contains an `=`. |
| QualificationParser.PairsOfValues | src/main/java/com/kineticdata/bridgehub/adapter/kineticcore/v2/KineticCoreQualificationParser.java:36-40 | Each pair is the split of its own parameter text, so the value keeps any further `=`. |
| QualificationParser.ParseQuery | src/main/java/com/kineticdata/bridgehub/adapter/kineticcore/v2/KineticCoreQualificationParser.java:19-45 | `parseQuery` is the pair parse of the parameter texts after the first `?`. |
| QualificationParser.QueryTextsCount | src/main/java/com/kineticdata/bridgehub/adapter/kineticcore/v2/KineticCoreQualificationParser.java:23-27 | A query without `?` has no parameters, and one without `&` after the `?` has exactly one parameter text, the rest of the text. |
| QualificationParser.EncodeParameter | src/main/java/com/kineticdata/bridgehub/adapter/kineticcore/v2/KineticCoreQualificationParser.java:55-61 | `null` is encoded as `null` and any text as a text. |
| QualificationParser.EncodeIsEscapeAll | src/main/java/com/kineticdata/bridgehub/adapter/kineticcore/v2/KineticCoreQualificationParser.java:58 | The two `replace` calls together escape each character on its own: a backslash becomes two, a quotation mark gets a backslash before it, anything else stays. |
| QualificationParser.EncodeParameterRoundTrip | src/main/java/com/kineticdata/bridgehub/adapter/kineticcore/v2/KineticCoreQualificationParser.java:58 | Reading the encoded text back left to right (`\\` to `\`, `\"` to `"`) gives the original value. |
| QualificationParser.EncodeParameterLength | src/main/java/com/kineticdata/bridgehub/adapter/kineticcore/v2/KineticCoreQualificationParser.java:55-61 | The encoded length is the original length plus the number of backslashes plus the number of quotation marks. |
| QualificationParser.EncodeBackslash | src/test/java/com/kineticdata/bridgehub/adapter/kineticcore/v2/KineticCoreQualificationParserTest.java:76-87 | A single backslash is encoded as two backslashes. |
| QualificationParser.EncodeBackslashQuote | src/test/java/com/kineticdata/bridgehub/adapter/kineticcore/v2/KineticCoreQualificationParserTest.java:89-100 | A backslash followed by a quotation mark is encoded as three backslashes and the quotation mark. |
| QualificationParser.EncodeQuoteAbc | src/test/java/com/kineticdata/bridgehub/adapter/kineticcore/v2/KineticCoreQualificationParserTest.java:102-112 | A leading quotation mark gets one backslash before it and the rest is kept. |
| SubmissionComparator.Normalize | src/main/java/com/kineticdata/bridgehub/adapter/kineticcore/v2/KappSubmissionComparator.java:40-48 | `normalize` keeps the length of a text and maps `null` to the empty text. |
| SubmissionComparator.FieldsCompare | src/main/java/com/kineticdata/bridgehub/adapter/kineticcore/v2/KappSubmissionComparator.java:24-38 | The comparison result is -1, 0 or 1 in sign, and a failure is only the null pointer of a missing compared field. |
| SubmissionComparator.Compare | src/main/java/com/kineticdata/bridgehub/adapter/kineticcore/v2/KappSubmissionComparator.java:24-38 | The loop with its early exit computes exactly the field-by-field comparison: the first non-zero field comparison, 0 when every field ties. |
| SubmissionComparator.CompareReflexive | src/main/java/com/kineticdata/bridgehub/adapter/kineticcore/v2/KappSubmissionComparator.java:24-38 | A record compared with itself gives 0 when it has every compared field, and the null pointer otherwise. |
| SubmissionComparator.CompareAntisymmetric | src/main/java/com/kineticdata/bridgehub/adapter/kineticcore/v2/KappSubmissionComparator.java:30 | Swapping the two records fails exactly when the original order fails, and otherwise negates the result. |
| SubmissionComparator.CompareIsAscendingOrder | src/test/java/com/kineticdata/bridgehub/adapter/kineticcore/v2/KappSubmissionComparatorTest.java:42-167 | On records holding every compared field the comparator is the multi-field order with every field ascending, earlier fields deciding first. |
| SubmissionComparator.ReversedIsDescendingOrder | src/test/java/com/kineticdata/bridgehub/adapter/kineticcore/v2/KappSubmissionComparatorTest.java:42-167 | The reversed comparator is the same multi-field order with every field descending. |
| Strings.IndexOf | src/main/java/com/kineticdata/bridgehub/adapter/kineticcore/v2/KineticCoreQualificationParser.java:23 | The first position of a character, or the length when the character does not occur; nothing before it is that character. |
| Strings.TrimLeft | src/main/java/com/kineticdata/bridgehub/adapter/kineticcore/v2/KineticCoreQualificationParser.java:37 | `trim` at the front: only characters up to space are removed, and the result starts with a kept character. |
| Strings.TrimRight | src/main/java/com/kineticdata/bridgehub/adapter/kineticcore/v2/KineticCoreQualificationParser.java:38 | `trim` at the back: only characters up to space are removed, and the result ends with a kept character. |
| Strings.AsciiLower | src/main/java/com/kineticdata/bridgehub/adapter/kineticcore/v2/KappSubmissionComparator.java:45 | Lower-casing keeps the length and folds each character on its own. |
| Strings.SplitChar | src/main/java/com/kineticdata/bridgehub/adapter/kineticcore/KineticCoreUserHelper.java:287 | Cutting at every separator gives pieces without the separator that join back to the text, and a text without it is one piece. |
| Strings.SplitLastNonEmpty | src/main/java/com/kineticdata/bridgehub/adapter/kineticcore/KineticCoreUserHelper.java:291 | When the text does not end with the separator, the last piece is not empty. |
| Strings.JavaSplit | src/main/java/com/kineticdata/bridgehub/adapter/kineticcore/KineticCoreUserHelper.java:287 | Java's `split` on one character: the pieces of the full cut with trailing empty ones dropped, and the whole text when the character does not occur. |
| Strings.SplitCommaList | src/main/java/com/kineticdata/bridgehub/adapter/kineticcore/v2/KineticCoreApiHelper.java:264-265 | `split("\\s*,\\s*")` yields items without commas, and a text without a comma is one item. |
| Strings.SplitCommaListJoin | src/main/java/com/kineticdata/bridgehub/adapter/kineticcore/v2/KineticCoreApiHelper.java:264-265 | Splitting a comma-joined list of plain items gives the items back. |
| Strings.AddAll | src/main/java/com/kineticdata/bridgehub/adapter/kineticcore/v2/KineticCoreApiHelper.java:263-267 | `LinkedHashSet.addAll` keeps what was there in front, adds exactly the new items and keeps the set free of repeats. |
| Strings.OrderedUnionFacts | src/main/java/com/kineticdata/bridgehub/adapter/kineticcore/v2/KineticCoreApiHelper.java:263-269 | The include union is free of repeats, starts with the caller's items, holds exactly the items of both lists, and is the plain concatenation when they share nothing. |
| Strings.CompareStrings | src/main/java/com/kineticdata/bridgehub/adapter/kineticcore/KineticCoreRecordHelper.java:348-375 | The sign of `String.compareTo` is 0 exactly on equal texts. |
| Strings.CompareStringsAntisymmetric | src/main/java/com/kineticdata/bridgehub/adapter/kineticcore/KineticCoreRecordHelper.java:348-375 | Swapping the texts negates the sign. |
| Strings.CompareStringsTransitive | src/main/java/com/kineticdata/bridgehub/adapter/kineticcore/KineticCoreRecordHelper.java:348-375 | Not-after is transitive on texts. |
| Strings.Wrap32 | src/main/java/com/kineticdata/bridgehub/adapter/kineticcore/KineticCoreFormHelper.java:103 | Java `int` wrap-around: the result is in the 32-bit range and equals the input when that is already in range. |
| Strings.ParseInt32 | src/main/java/com/kineticdata/bridgehub/adapter/kineticcore/KineticCoreFormHelper.java:95-100 | `Integer.parseInt` accepts only non-empty text and only values in the 32-bit range. |
| Strings.DecimalRoundTrip | src/main/java/com/kineticdata/bridgehub/adapter/kineticcore/KineticCoreFormHelper.java:103-105 | Parsing the decimal text of any 32-bit integer gives that integer back. |
| Records.Lookup | src/main/java/com/kineticdata/bridgehub/adapter/kineticcore/v2/KineticCoreApiHelper.java:276 | A key is absent exactly when the lookup says none. |
| Records.Put | src/main/java/com/kineticdata/bridgehub/adapter/kineticcore/v2/KineticCoreApiHelper.java:280-283 | After a put the key maps to the new value; the key order gains the key at the end only if it was new. |
| Records.PutOther | src/main/java/com/kineticdata/bridgehub/adapter/kineticcore/v2/KineticCoreApiHelper.java:280-283 | A put leaves the value of every other key alone. |
| Records.LookupAppend | src/main/java/com/kineticdata/bridgehub/adapter/kineticcore/v2/KineticCoreApiHelper.java:275 | Looking up in a list with one more pair at the end finds the earlier value first. |
| Records.GetValue | src/main/java/com/kineticdata/bridgehub/adapter/kineticcore/v2/KappSubmissionComparator.java:28 | `Record.getValue` gives a value only for a present key, and nothing for an absent one. |
| Records.LookupPut | src/main/java/com/kineticdata/bridgehub/adapter/kineticcore/v2/KineticCoreApiHelper.java:160 | After `Map.put` the key holds the new value and every other key holds what it held before. |
| Records.PutEachKeeps | src/main/java/com/kineticdata/bridgehub/adapter/kineticcore/KineticCoreUserHelper.java:305 | A run of puts that never names a key leaves that key's value unchanged. |
| Records.PutEachLast | src/main/java/com/kineticdata/bridgehub/adapter/kineticcore/KineticCoreUserHelper.java:305 | After a run of puts a key holds the value of the last put that names it. |
| Records.BuildKeys | src/main/java/com/kineticdata/bridgehub/adapter/kineticcore/v2/KineticCoreApiHelper.java:142-164 | The keys of a record built field by field are the requested fields, each once, in order of first request. |
| Records.BuildLookup | src/main/java/com/kineticdata/bridgehub/adapter/kineticcore/v2/KineticCoreApiHelper.java:144-164 | Every requested field of a built record has a value that succeeded, and the record holds that value. |
| Records.BuildFacts | src/main/java/com/kineticdata/bridgehub/adapter/kineticcore/v2/KineticCoreApiHelper.java:142-164 | A built record has exactly the requested fields as keys, in order of first request, and each holds its own value. |
| Records.BuildOk | src/main/java/com/kineticdata/bridgehub/adapter/kineticcore/v2/KineticCoreApiHelper.java:144-164 | A record fails only when one of its fields' values fails. |
| Json.Get | src/main/java/com/kineticdata/bridgehub/adapter/kineticcore/v2/KineticCoreApiHelper.java:193 | A member lookup gives `null` for an absent key, and otherwise a value that the object holds under that key. |
| Json.Stringify | src/main/java/com/kineticdata/bridgehub/adapter/kineticcore/v2/KineticCoreApiHelper.java:129-139 | `toString` gives `null` exactly for `null`, and a string's own text for a string. |
| QueryBuilder.Processed | src/main/java/com/kineticdata/bridgehub/adapter/kineticcore/v2/KineticCoreApiHelper.java:259-274 | The mapping step keeps each parameter's name, passes every parameter but `include` through, and rewrites `include` to the merged include list. |
| QueryBuilder.ProcessAll | src/main/java/com/kineticdata/bridgehub/adapter/kineticcore/v2/KineticCoreApiHelper.java:259-274 | Mapping every parameter keeps the number and the names of the parameters, in order. |
| QueryBuilder.BuildQuery | src/main/java/com/kineticdata/bridgehub/adapter/kineticcore/v2/KineticCoreApiHelper.java:256-287 | The loop that fills the map computes the query function: its pairs, or the duplicate-name failure of `toMap`. |
| QueryBuilder.CollectOk | src/main/java/com/kineticdata/bridgehub/adapter/kineticcore/v2/KineticCoreApiHelper.java:275 | Collecting into the map succeeds exactly when no name repeats. |
| QueryBuilder.CollectValue | src/main/java/com/kineticdata/bridgehub/adapter/kineticcore/v2/KineticCoreApiHelper.java:275 | A successful collection is the processed parameters in order after what was gathered before. |
| QueryBuilder.CollectErr | src/main/java/com/kineticdata/bridgehub/adapter/kineticcore/v2/KineticCoreApiHelper.java:275 | A failed collection names a duplicate key that does occur twice. |
| QueryBuilder.QueryOk | src/main/java/com/kineticdata/bridgehub/adapter/kineticcore/v2/KineticCoreApiHelper.java:275 | `buildQuery` fails exactly when a parameter name is given twice, and the failure names a repeated name. |
| QueryBuilder.QueryKeys | src/main/java/com/kineticdata/bridgehub/adapter/kineticcore/v2/KineticCoreApiHelper.java:276-283 | The names sent are the caller's in order, then `include` if the caller gave none, then `limit` if the v2 default applies and the caller gave none. |
| QueryBuilder.QueryInclude | src/main/java/com/kineticdata/bridgehub/adapter/kineticcore/v2/KineticCoreApiHelper.java:262-279 | The `include` sent is the caller's items followed by the implicit ones not already there, or the implicit ones alone when the caller gave none. |
| QueryBuilder.QueryLimit | src/main/java/com/kineticdata/bridgehub/adapter/kineticcore/v2/KineticCoreApiHelper.java:280-283 | The `limit` sent is the caller's when given; otherwise `1000` in the v2 helper and none in the v1 helper. |
| QueryBuilder.QueryPassThrough | src/main/java/com/kineticdata/bridgehub/adapter/kineticcore/v2/KineticCoreApiHelper.java:270-272 | Every parameter other than `include` and `limit` is sent with the caller's value. |
| QueryBuilder.MergedIncludeAppends | src/main/java/com/kineticdata/bridgehub/adapter/kineticcore/v2/KineticCoreApiHelper.java:262-269 | With plain caller items and no overlap the merged include is the caller's list extended by the implicit one; with no implicit includes it is unchanged. |
| QueryBuilder.QueryIncludeOnly | src/main/java/com/kineticdata/bridgehub/adapter/kineticcore/v2/KineticCoreApiHelper.java:256-287 | A query whose only parameter is `include` sends the merged include, plus `limit=1000` in the v2 helper. |
| QueryBuilder.QueryEmpty | src/main/java/com/kineticdata/bridgehub/adapter/kineticcore/v2/KineticCoreApiHelper.java:276-283 | A query without parameters sends the implicit includes, plus `limit=1000` in the v2 helper. |
| QueryBuilder.MergedIncludeExamples | src/test/java/com/kineticdata/bridgehub/adapter/kineticcore/v2/KineticCoreHelperTest.java:34-46 | Merging `fields` with `details,attributes` gives `fields,details,attributes`, and with nothing gives `fields`. |
| QueryBuilder.QueryExamplesV1 | src/test/java/com/kineticdata/bridgehub/adapter/kineticcore/KineticCoreApiHelperTest.java:31-70 | The three v1 helper cases: a widened include, an include supplied when absent, an include kept when there are no implicit includes. |
| QueryBuilder.QueryExamplesV2 | src/test/java/com/kineticdata/bridgehub/adapter/kineticcore/v2/KineticCoreHelperTest.java:34-73 | The same three cases for the v2 helper, each with `limit=1000` added. |
| V2Records.Extract | src/main/java/com/kineticdata/bridgehub/adapter/kineticcore/v2/KineticCoreApiHelper.java:192-206 | `extract` gives `null` for a `null` object, and otherwise the `toString` of the member. |
| V2Records.FirstNamed | src/main/java/com/kineticdata/bridgehub/adapter/kineticcore/v2/KineticCoreApiHelper.java:178-188 | The stream finds nothing exactly when no entry is an object with `name` and `values` and the given name; otherwise it finds the first such entry. |
| V2Records.ExtractNamed | src/main/java/com/kineticdata/bridgehub/adapter/kineticcore/v2/KineticCoreApiHelper.java:178-190 | Without a matching entry the value is `null`. |
| V2Records.FieldValue | src/main/java/com/kineticdata/bridgehub/adapter/kineticcore/v2/KineticCoreApiHelper.java:144-163 | A plain field is the `extract` of the item; only a bracketed field can fail. |
| V2Records.CreateRecords | src/main/java/com/kineticdata/bridgehub/adapter/kineticcore/v2/KineticCoreApiHelper.java:169-175 | A successful list has one record per array entry. |
| V2Records.BuildRecord | src/main/java/com/kineticdata/bridgehub/adapter/kineticcore/v2/KineticCoreApiHelper.java:141-167 | The `forEach` loop computes the record function: the record, or the first field's failure. |
| V2Records.BuildRecords | src/main/java/com/kineticdata/bridgehub/adapter/kineticcore/v2/KineticCoreApiHelper.java:169-175 | The loop over the entries computes the list function. |
| Records.BuildErr | src/main/java/com/kineticdata/bridgehub/adapter/kineticcore/v2/KineticCoreApiHelper.java:157-159 | A failure on a field, once the fields before it succeeded, is the failure of the whole record. |
| V2Records.CreateRecordsErr | src/main/java/com/kineticdata/bridgehub/adapter/kineticcore/v2/KineticCoreApiHelper.java:172-174 | Once a prefix of the entries fails, the whole list fails with the same error. |
| V2Records.CreateRecordFacts | src/main/java/com/kineticdata/bridgehub/adapter/kineticcore/v2/KineticCoreApiHelper.java:141-167 | A built record holds exactly the requested fields in request order (a repeat once, where it first appears), each with its own field's value. |
| V2Records.DistinctFieldsAreKeys | src/main/java/com/kineticdata/bridgehub/adapter/kineticcore/v2/KineticCoreApiHelper.java:141-167 | Distinct requested fields are exactly the record's keys, in request order. |
| V2Records.PlainFieldsSucceed | src/main/java/com/kineticdata/bridgehub/adapter/kineticcore/v2/KineticCoreApiHelper.java:161-163 | A record of plain fields never fails. |
| V2Records.ArrayProperty | src/main/java/com/kineticdata/bridgehub/adapter/kineticcore/v2/KineticCoreApiHelper.java:153-154 | For an array property, `c[k]` is the text of the `values` of the first entry named `k`, or `null`. |
| V2Records.ObjectProperty | src/main/java/com/kineticdata/bridgehub/adapter/kineticcore/v2/KineticCoreApiHelper.java:155-156 | For an object property, `c[k]` is the text of its member `k`, or `null`. |
| V2Records.ScalarProperty | src/main/java/com/kineticdata/bridgehub/adapter/kineticcore/v2/KineticCoreApiHelper.java:157-159 | A bracketed field on a missing, `null` or scalar property fails with the nested-type error. |
| V2Records.NullItem | src/main/java/com/kineticdata/bridgehub/adapter/kineticcore/v2/KineticCoreApiHelper.java:192-193 | A `null` item gives `null` for every plain field and fails on a bracketed one. |
| V2Adapter.NewMapping | src/main/java/com/kineticdata/bridgehub/adapter/kineticcore/v2/KineticCoreAdapter.java:134-152 | The constructors copy the implicit includes into a set without repeats that holds the same names, in order when they were already distinct. |
| V2Adapter.GetMapping | src/main/java/com/kineticdata/bridgehub/adapter/kineticcore/v2/KineticCoreAdapter.java:476-483 | `getMapping` succeeds exactly for a table structure, returns its entry, and otherwise fails naming the structure. |
| V2Adapter.MappingsFacts | src/main/java/com/kineticdata/bridgehub/adapter/kineticcore/v2/KineticCoreAdapter.java:180-204 | The table has exactly the seven structures; each entry names itself, and only `Datastore Submissions` has no pagination fields. |
| V2Adapter.AddImplicitIncludes | src/main/java/com/kineticdata/bridgehub/adapter/kineticcore/v2/KineticCoreAdapter.java:445-460 | As written: a present `include` leaves the parameters exactly as they were; an absent one is added at the end. |
| V2Adapter.AddImplicitIncludesFacts | src/main/java/com/kineticdata/bridgehub/adapter/kineticcore/v2/KineticCoreAdapter.java:445-460 | As written, a caller's `include` is sent as given and a missing one becomes the implicit includes joined by commas; no other parameter changes. |
| V2Adapter.ImplicitIncludesDropped | src/main/java/com/kineticdata/bridgehub/adapter/kineticcore/v2/KineticCoreAdapter.java:448-453 | As written, `include=fields` stays `fields` with implicit `details,attributes`, although the union built is `fields,details,attributes`. |
| V2Adapter.AddImplicitIncludesMerged | src/main/java/com/kineticdata/bridgehub/adapter/kineticcore/v2/KineticCoreAdapter.java:445-460 | With the union stored, the key order keeps `include` in place or adds it at the end. |
| V2Adapter.MergedIncludeMatchesQuery | src/main/java/com/kineticdata/bridgehub/adapter/kineticcore/v2/KineticCoreAdapter.java:445-460 | With the union stored, the `include` sent equals the one the v2 `buildQuery` computes for the same parameters, and no other parameter changes. |
| V2Adapter.DirectionSetSize | src/main/java/com/kineticdata/bridgehub/adapter/kineticcore/v2/KineticCoreAdapter.java:596-597 | The set of lower-cased directions has at most one member exactly when all directions agree, ignoring case. |
| V2Adapter.PaginationSupportedByOrder | src/main/java/com/kineticdata/bridgehub/adapter/kineticcore/v2/KineticCoreAdapter.java:591-617 | The order is supported exactly when all directions agree and the ordered fields equal the pagination fields in number and order, ignoring case. |
| V2Adapter.HitsZero | src/main/java/com/kineticdata/bridgehub/adapter/kineticcore/v2/KineticCoreAdapter.java:578-588 | No pagination field counts exactly when none occurs in the query. |
| V2Adapter.HitsOne | src/main/java/com/kineticdata/bridgehub/adapter/kineticcore/v2/KineticCoreAdapter.java:561-575 | The count is one exactly when a single pagination field occurs in the query. |
| V2Adapter.PaginationSupportedForField | src/main/java/com/kineticdata/bridgehub/adapter/kineticcore/v2/KineticCoreAdapter.java:561-575 | The loop with its early exit returns true exactly when exactly one pagination field occurs in the query. |
| V2Adapter.PaginationSupportedForQuery | src/main/java/com/kineticdata/bridgehub/adapter/kineticcore/v2/KineticCoreAdapter.java:578-588 | The loop returns true exactly when some pagination field occurs in the query. |
| V2Adapter.OrderExamples | src/test/java/com/kineticdata/bridgehub/adapter/kineticcore/v2/KineticCoreHelperTest.java:75-115 | The helper test's order cases: matching fields in one direction are supported; mixed directions, another number of fields and another order are not. |
| V2Adapter.QueryFieldExamples | src/test/java/com/kineticdata/bridgehub/adapter/kineticcore/v2/KineticCoreHelperTest.java:118-142 | `createdAt` is found in the timeline query and not in the bare path. |
| V2Adapter.IndexFields | src/main/java/com/kineticdata/bridgehub/adapter/kineticcore/v2/KineticCoreAdapter.java:323-328 | The `index` parameter split at commas gives items without commas; a missing `index` is a null pointer. |
| V2Adapter.IndexFieldsJoin | src/main/java/com/kineticdata/bridgehub/adapter/kineticcore/v2/KineticCoreAdapter.java:325-327 | An index of plain names joined by commas gives those names back. |
| V2Results.ResponseObject | src/main/java/com/kineticdata/bridgehub/adapter/kineticcore/v2/KineticCoreAdapter.java:231 | The response is usable exactly when it is a JSON object, and is then that object. |
| V2Results.PluralArray | src/main/java/com/kineticdata/bridgehub/adapter/kineticcore/v2/KineticCoreAdapter.java:234 | The plural member reads as absent exactly for `null`, and as an array exactly for an array. |
| V2Results.SingularObject | src/main/java/com/kineticdata/bridgehub/adapter/kineticcore/v2/KineticCoreAdapter.java:285 | The singular member reads as absent exactly for `null`, and as an object exactly for an object. |
| V2Results.PageToken | src/main/java/com/kineticdata/bridgehub/adapter/kineticcore/v2/KineticCoreAdapter.java:244-245 | The page token is the text `null` for a missing token, and the token's own text for a string. |
| V2Results.RetrieveItem | src/main/java/com/kineticdata/bridgehub/adapter/kineticcore/v2/KineticCoreApiHelper.java:76-89 | With a plural array, more than one entry is the ambiguity error and none is an index error. |
| V2Results.HelperCount | src/main/java/com/kineticdata/bridgehub/adapter/kineticcore/v2/KineticCoreApiHelper.java:53-69 | A count comes from an object response, with the page token as its only metadata. |
| V2Results.HelperSearch | src/main/java/com/kineticdata/bridgehub/adapter/kineticcore/v2/KineticCoreApiHelper.java:94-114 | A search comes from an object response, with the page token as its only metadata. |
| V2Results.CountIsSearchSize | src/main/java/com/kineticdata/bridgehub/adapter/kineticcore/v2/KineticCoreApiHelper.java:53-114 | On the same response the count equals the number of records the search builds, with the same metadata. |
| V2Results.HelperCountOk | src/main/java/com/kineticdata/bridgehub/adapter/kineticcore/v2/KineticCoreApiHelper.java:57-68 | The helper's count fails exactly when the response is not an object or has no plural array. |
| V2Results.RetrieveIsOnlySearchRecord | src/main/java/com/kineticdata/bridgehub/adapter/kineticcore/v2/KineticCoreApiHelper.java:80-91 | For a one-entry array, the retrieve gives the only record the search builds. |
| V2Results.NoPluralArray | src/main/java/com/kineticdata/bridgehub/adapter/kineticcore/v2/KineticCoreApiHelper.java:87-103 | Without the plural array the search finds nothing and the retrieve reads the singular object. |
| V2Results.Caught | src/main/java/com/kineticdata/bridgehub/adapter/kineticcore/v2/KineticCoreAdapter.java:248-250 | The catch-all keeps a success and turns any failure into the parse error. |
| V2Results.AdapterCount | src/main/java/com/kineticdata/bridgehub/adapter/kineticcore/v2/KineticCoreAdapter.java:230-250 | The adapter's count fails only with the parse error, and counts more than one only from a plural array. |
| V2Results.AdapterCountAgainstHelper | src/main/java/com/kineticdata/bridgehub/adapter/kineticcore/v2/KineticCoreAdapter.java:236-242 | Where the helper counts, the adapter counts the same; without an array the adapter counts a singular object as one and nothing as zero. |
| V2Results.AdapterRetrieve | src/main/java/com/kineticdata/bridgehub/adapter/kineticcore/v2/KineticCoreAdapter.java:270-291 | The adapter's retrieve succeeds exactly when the helper's does, with the same record. |
| V2Results.AdapterSearch | src/main/java/com/kineticdata/bridgehub/adapter/kineticcore/v2/KineticCoreAdapter.java:361-377 | The adapter's search fails only with the parse error, and its metadata holds the page token. |
| V2Results.AdapterSearchAgainstHelper | src/main/java/com/kineticdata/bridgehub/adapter/kineticcore/v2/KineticCoreAdapter.java:364-377 | The adapter and the helper read the same records and fail on the same responses; the caller's other metadata entries are kept. |
| V2Search.SupportedAsWritten | src/main/java/com/kineticdata/bridgehub/adapter/kineticcore/v2/KineticCoreAdapter.java:318-345 | As written: no order is unsupported, and a one-item order on a timeline structure is never checked. |
| V2Search.Supported | src/main/java/com/kineticdata/bridgehub/adapter/kineticcore/v2/KineticCoreAdapter.java:318-345 | Corrected guard: no order is unsupported, a timeline order of any length other than one is unsupported, and other structures decide as written. |
| V2Search.SupportedFacts | src/main/java/com/kineticdata/bridgehub/adapter/kineticcore/v2/KineticCoreAdapter.java:318-345 | For a table structure the decision fails only for `Datastore Submissions` without `index`; otherwise it is that structure's matching rule. |
| V2Search.TimelineGuardInverted | src/main/java/com/kineticdata/bridgehub/adapter/kineticcore/v2/KineticCoreAdapter.java:334-339 | As written, a one-item `createdAt` order with `createdAt` in the query is unsupported (corrected: supported), and an empty order fails. |
| V2Search.SearchPlan | src/main/java/com/kineticdata/bridgehub/adapter/kineticcore/v2/KineticCoreAdapter.java:308-353 | Planning a search fails only for an unknown structure or for `Datastore Submissions` with an order. |
| V2Search.SearchPlanLimit | src/main/java/com/kineticdata/bridgehub/adapter/kineticcore/v2/KineticCoreAdapter.java:347-351 | The limit sent is the caller's only when the server pages in order and the caller gave one, else `1000`; the caller's limit is remembered exactly when replaced. |
| V2Search.SearchWithoutOrder | src/main/java/com/kineticdata/bridgehub/adapter/kineticcore/v2/KineticCoreAdapter.java:317-351 | Without an order the search is never supported and asks for `1000` results. |
| V2Search.SearchPlanPassThrough | src/main/java/com/kineticdata/bridgehub/adapter/kineticcore/v2/KineticCoreAdapter.java:347-353 | Every parameter other than `limit` and `include` is sent with the caller's value. |
| V2Search.IncludeLeavesOthers | src/main/java/com/kineticdata/bridgehub/adapter/kineticcore/v2/KineticCoreAdapter.java:445-460 | Storing the merged `include` changes no other parameter. |
| V2Search.CountParams | src/main/java/com/kineticdata/bridgehub/adapter/kineticcore/v2/KineticCoreAdapter.java:218-220 | The count's parameters gain `limit=1000` at the end only when the caller gave no limit. |
| V2Search.CountParamsPassThrough | src/main/java/com/kineticdata/bridgehub/adapter/kineticcore/v2/KineticCoreAdapter.java:216-220 | The count leaves every parameter other than `limit` alone. |
| V2Search.RetrieveParams | src/main/java/com/kineticdata/bridgehub/adapter/kineticcore/v2/KineticCoreAdapter.java:256-263 | A retrieve's parameters exist exactly for a table structure, with `include` added at the end when absent. |
| Attributes.AsList | src/main/java/com/kineticdata/bridgehub/adapter/kineticcore/KineticCoreUserHelper.java:280 | The cast of an attribute's `values` to a list succeeds exactly for a list or `null`, and otherwise is a class-cast failure. |
| Attributes.FindAttribute | src/main/java/com/kineticdata/bridgehub/adapter/kineticcore/KineticCoreUserHelper.java:277-283 | The scan gives a list or `null`, and fails only with a null pointer or a class cast. |
| Attributes.ScanAttributes | src/main/java/com/kineticdata/bridgehub/adapter/kineticcore/KineticCoreUserHelper.java:277-283 | The loop with its early return computes the scan function. |
| Attributes.AttributeValues | src/main/java/com/kineticdata/bridgehub/adapter/kineticcore/KineticCoreUserHelper.java:274-284 | A user without the container fails naming the container; otherwise the result is a list or `null`. |
| Attributes.GetAttributeValues | src/main/java/com/kineticdata/bridgehub/adapter/kineticcore/KineticCoreUserHelper.java:274-284 | The method computes the `getAttributeValues` function. |
| Attributes.ChildValues | src/main/java/com/kineticdata/bridgehub/adapter/kineticcore/KineticCoreSubmissionHelper.java:474-492 | A submission without the container fails naming it; an object container gives its member of that name. |
| Attributes.GetChildValues | src/main/java/com/kineticdata/bridgehub/adapter/kineticcore/KineticCoreSubmissionHelper.java:474-492 | The method computes the `getChildValues` function. |
| Attributes.AttributeFound | src/main/java/com/kineticdata/bridgehub/adapter/kineticcore/KineticCoreUserHelper.java:277-281 | On a well-formed attribute list the result is the `values` of the first attribute with the name. |
| Attributes.AttributeAbsent | src/main/java/com/kineticdata/bridgehub/adapter/kineticcore/KineticCoreUserHelper.java:283 | On a well-formed attribute list without the name the result is the empty list. |
| Brackets.CloseFrom | src/main/java/com/kineticdata/bridgehub/adapter/kineticcore/KineticCoreUserHelper.java:47 | The lazy `(.*?)\]` stops at the first `]`, with no line terminator before it. |
| Brackets.OpenFrom | src/main/java/com/kineticdata/bridgehub/adapter/kineticcore/KineticCoreUserHelper.java:47 | The lazy `(.*?)\[(.*?)\]` finds a `[` with its first following `]`, and no line terminator before the `[`. |
| Brackets.FindAt | src/main/java/com/kineticdata/bridgehub/adapter/kineticcore/KineticCoreUserHelper.java:316 | `find()` reports a start, a `[` and a `]` in that order inside the name, with the `]` the first after the `[`. |
| Brackets.MatchBracket | src/main/java/com/kineticdata/bridgehub/adapter/kineticcore/v2/KineticCoreApiHelper.java:147 | `matches()` succeeds only for a name of the form `a[b]` with no `[` in `a` and no line terminator in the name. |
| Brackets.FindSound | src/main/java/com/kineticdata/bridgehub/adapter/kineticcore/KineticCoreUserHelper.java:315-319 | What `find()` reports occurs in the name as `a[b]`, with no line terminator in either group and no `]` in `b`. |
| Brackets.FindBracketField | src/main/java/com/kineticdata/bridgehub/adapter/kineticcore/KineticCoreUserHelper.java:315-319 | `find()` splits a name `a[b]` into `a` and `b`. |
| Brackets.MatchBracketField | src/main/java/com/kineticdata/bridgehub/adapter/kineticcore/v2/KineticCoreApiHelper.java:147-149 | `matches()` splits a name `a[b]` into `a` and `b`. |
| Brackets.NoOpen | src/main/java/com/kineticdata/bridgehub/adapter/kineticcore/KineticCoreUserHelper.java:316 | A name without `[` has no `find()` match. |
| Brackets.PlainField | src/main/java/com/kineticdata/bridgehub/adapter/kineticcore/KineticCoreUserHelper.java:325 | A name without `[` is a plain field for both forms of the match. |
| Wildcard.Lits | src/main/java/com/kineticdata/bridgehub/adapter/kineticcore/KineticCoreUserHelper.java:267 | A quoted literal has one token per character of the value. |
| Wildcard.Pieces | src/main/java/com/kineticdata/bridgehub/adapter/kineticcore/KineticCoreUserHelper.java:265 | Splitting at the unescaped `%` gives at least one piece. |
| Wildcard.Unescape | src/main/java/com/kineticdata/bridgehub/adapter/kineticcore/KineticCoreUserHelper.java:267 | Replacing `\%` by `%` never lengthens the text. |
| Wildcard.LitsMatch | src/main/java/com/kineticdata/bridgehub/adapter/kineticcore/KineticCoreUserHelper.java:267-271 | A quoted literal matches exactly the texts equal to it, ignoring case. |
| Wildcard.LitsThen | src/main/java/com/kineticdata/bridgehub/adapter/kineticcore/KineticCoreUserHelper.java:267-271 | A literal prefix consumes exactly as many characters, compared ignoring case. |
| Wildcard.MatchesEmpty | src/main/java/com/kineticdata/bridgehub/adapter/kineticcore/KineticCoreUserHelper.java:271 | The empty pattern matches only the empty text. |
| Wildcard.StarSkip | src/main/java/com/kineticdata/bridgehub/adapter/kineticcore/KineticCoreUserHelper.java:269 | A `.*?` can absorb any prefix without line terminators. |
| Wildcard.StarSplit | src/main/java/com/kineticdata/bridgehub/adapter/kineticcore/KineticCoreUserHelper.java:269 | When a `.*?`-led pattern matches, the `.*?` absorbed a prefix without line terminators and the rest matched the remainder. |
| Wildcard.StarAlone | src/main/java/com/kineticdata/bridgehub/adapter/kineticcore/KineticCoreUserHelper.java:269 | A lone `.*?` matches exactly the texts without line terminators. |
| Wildcard.UnescapePlain | src/main/java/com/kineticdata/bridgehub/adapter/kineticcore/KineticCoreUserHelper.java:267 | A text without `\%` is unchanged by the replacement. |
| Wildcard.UnescapeEscaped | src/main/java/com/kineticdata/bridgehub/adapter/kineticcore/KineticCoreUserHelper.java:267 | `a\%b` becomes `a%b` when neither side holds another `%`. |
| Wildcard.UnescapeFirst | src/main/java/com/kineticdata/bridgehub/adapter/kineticcore/KineticCoreUserHelper.java:267 | A character that cannot start `\%` is kept as it is. |
| Wildcard.CompilePlain | src/main/java/com/kineticdata/bridgehub/adapter/kineticcore/KineticCoreUserHelper.java:263-272 | A value without `%` compiles to the quoted value. |
| Wildcard.PartsLeading | src/main/java/com/kineticdata/bridgehub/adapter/kineticcore/KineticCoreUserHelper.java:265 | `%v` splits into an empty piece and `v`. |
| Wildcard.PartsTrailing | src/main/java/com/kineticdata/bridgehub/adapter/kineticcore/KineticCoreUserHelper.java:265 | `v%` splits into `v` alone, since Java drops trailing empty pieces. |
| Wildcard.PartsSurrounded | src/main/java/com/kineticdata/bridgehub/adapter/kineticcore/KineticCoreUserHelper.java:265 | `%v%` splits into an empty piece and `v`. |
| Wildcard.CompileLeading | src/main/java/com/kineticdata/bridgehub/adapter/kineticcore/KineticCoreUserHelper.java:263-272 | `%v` compiles to `.*?` followed by the quoted `v`. |
| Wildcard.CompileTrailing | src/main/java/com/kineticdata/bridgehub/adapter/kineticcore/KineticCoreUserHelper.java:263-272 | `v%` compiles to the quoted `v` followed by `.*?`. |
| Wildcard.CompileSurrounded | src/main/java/com/kineticdata/bridgehub/adapter/kineticcore/KineticCoreUserHelper.java:263-272 | `%v%` compiles to the quoted `v` between two `.*?`. |
| Wildcard.CompileLone | src/main/java/com/kineticdata/bridgehub/adapter/kineticcore/KineticCoreUserHelper.java:263-272 | A lone `%` compiles to a single `.*?`. |
| Wildcard.CompileEscaped | src/main/java/com/kineticdata/bridgehub/adapter/kineticcore/KineticCoreUserHelper.java:263-272 | In `a\%b` the `%` is literal, but a final `\%` still earns the extra trailing `.*?`. |
| Wildcard.PlainValueMatches | src/main/java/com/kineticdata/bridgehub/adapter/kineticcore/KineticCoreUserHelper.java:263-272 | A value without `%` matches the field text exactly, ignoring case. |
| Wildcard.LeadingWildcardMatches | src/main/java/com/kineticdata/bridgehub/adapter/kineticcore/KineticCoreUserHelper.java:263-272 | `%v` matches the texts that end in `v` ignoring case, after a run without line terminators. |
| Wildcard.TrailingWildcardMatches | src/main/java/com/kineticdata/bridgehub/adapter/kineticcore/KineticCoreUserHelper.java:263-272 | `v%` matches the texts that begin with `v` ignoring case, followed by a run without line terminators. |
| Wildcard.SurroundedWildcardMatches | src/main/java/com/kineticdata/bridgehub/adapter/kineticcore/KineticCoreUserHelper.java:263-272 | `%v%` matches exactly the texts containing `v` ignoring case, with no line terminator around it. |
| Wildcard.LoneAndEmptyMatches | src/main/java/com/kineticdata/bridgehub/adapter/kineticcore/KineticCoreUserHelper.java:263-272 | A lone `%` matches every text without line terminators; an empty value matches only the empty text. |
| Wildcard.EscapedTrailingPercentMatches | src/main/java/com/kineticdata/bridgehub/adapter/kineticcore/KineticCoreUserHelper.java:270 | `v\%` matches any text that begins with `v%` and has no line terminator after it, not only `v%`. |
| Wildcard.AdapterTestPatterns | src/test/java/com/kineticdata/bridgehub/adapter/kineticcore/KineticCoreAdapterTest.java:195-241 | The user tests' values `%@kineticdata.com`, `test%` and `%user@kineticdata%` compile to the expected wildcard forms. |
| Qualifiers.MatchersFor | src/main/java/com/kineticdata/bridgehub/adapter/kineticcore/KineticCoreUserHelper.java:295-304 | A value gets at least one matcher; it gets the `null` matcher exactly for `null` and the empty matcher exactly for the empty value. |
| Qualifiers.CountHits | src/main/java/com/kineticdata/bridgehub/adapter/kineticcore/KineticCoreUserHelper.java:334-341 | A field value is hit at most once per matcher. |
| Qualifiers.EmptyHits | src/main/java/com/kineticdata/bridgehub/adapter/kineticcore/KineticCoreUserHelper.java:328-331 | The empty field-value list fails exactly when a matcher is `null`, with a null pointer. |
| Qualifiers.ParsePart | src/main/java/com/kineticdata/bridgehub/adapter/kineticcore/KineticCoreUserHelper.java:291-293 | Reading a part fails only with an index error. |
| Qualifiers.CountHitsPositive | src/main/java/com/kineticdata/bridgehub/adapter/kineticcore/KineticCoreUserHelper.java:334-341 | A field value is hit exactly when some matcher hits it. |
| Qualifiers.PairHitsPositive | src/main/java/com/kineticdata/bridgehub/adapter/kineticcore/KineticCoreUserHelper.java:333-342 | A value list is hit exactly when some value is hit by some matcher. |
| Qualifiers.TextHit | src/main/java/com/kineticdata/bridgehub/adapter/kineticcore/KineticCoreUserHelper.java:337 | The pattern for a value without `%` hits exactly the non-null field values whose text equals the value, ignoring case. |
| Qualifiers.QualifierMatches | src/main/java/com/kineticdata/bridgehub/adapter/kineticcore/KineticCoreUserHelper.java:296-304 | `true`/`false` accept that boolean or that text in any case; `null` accepts `null` or the text `null`; the empty value only an empty string; any other value the texts its pattern matches. |
| Qualifiers.BooleanHitsTwice | src/main/java/com/kineticdata/bridgehub/adapter/kineticcore/KineticCoreUserHelper.java:297 | A boolean field queried with its own value is hit twice, by the pattern and by the boolean, so the user is appended twice. |
| Qualifiers.EmptyQualifier | src/main/java/com/kineticdata/bridgehub/adapter/kineticcore/KineticCoreUserHelper.java:328-331 | For an empty value list the `null` query fails, the empty query hits once and any other hits never. |
| Qualifiers.ParsePartFacts | src/main/java/com/kineticdata/bridgehub/adapter/kineticcore/KineticCoreUserHelper.java:291-293 | A part `f=v` with no other `=` gives the trimmed `f` and `v`; a part without `=` gives an empty value. |
| Qualifiers.LoneEqualsFails | src/main/java/com/kineticdata/bridgehub/adapter/kineticcore/KineticCoreUserHelper.java:291-292 | The part `=` alone splits into nothing, and indexing it fails. |
| Qualifiers.AppendEmptyHits | src/main/java/com/kineticdata/bridgehub/adapter/kineticcore/KineticCoreUserHelper.java:328-331 | For an empty value list the user is appended once per empty matcher, and a `null` matcher fails. |
| Qualifiers.AppendHits | src/main/java/com/kineticdata/bridgehub/adapter/kineticcore/KineticCoreUserHelper.java:334-341 | The matchers loop appends the user once per matcher that hits the value. |
| Qualifiers.AppendPairHits | src/main/java/com/kineticdata/bridgehub/adapter/kineticcore/KineticCoreUserHelper.java:333-342 | The values loop appends the user once per value and matcher pair that hits. |
| Qualifiers.AppendValueHits | src/main/java/com/kineticdata/bridgehub/adapter/kineticcore/KineticCoreUserHelper.java:328-342 | The matching of one user appends it once per hit, or fails as the hit count does. |
| UserFilter.FieldValues | src/main/java/com/kineticdata/bridgehub/adapter/kineticcore/KineticCoreUserHelper.java:325 | A plain field offers the one value the user has for it. |
| UserFilter.ReadQualifiers | src/main/java/com/kineticdata/bridgehub/adapter/kineticcore/KineticCoreUserHelper.java:287-306 | The parts loop computes the qualifier-reading function. |
| UserFilter.GetFieldValues | src/main/java/com/kineticdata/bridgehub/adapter/kineticcore/KineticCoreUserHelper.java:325-328 | The method computes the field-values function. |
| UserFilter.MatchUser | src/main/java/com/kineticdata/bridgehub/adapter/kineticcore/KineticCoreUserHelper.java:322-343 | One user is appended once per hit, or the failure of the hit count is returned. |
| UserFilter.FilterByEntry | src/main/java/com/kineticdata/bridgehub/adapter/kineticcore/KineticCoreUserHelper.java:321-345 | The users loop for one field computes the one-pass function. |
| UserFilter.FilterUsers | src/main/java/com/kineticdata/bridgehub/adapter/kineticcore/KineticCoreUserHelper.java:286-349 | The method computes the whole filter function. |
| UserFilter.ScaleScale | src/main/java/com/kineticdata/bridgehub/adapter/kineticcore/KineticCoreUserHelper.java:311-346 | Two passes in a row repeat each user by the product of its counts. |
| UserFilter.FilterEntryScales | src/main/java/com/kineticdata/bridgehub/adapter/kineticcore/KineticCoreUserHelper.java:321-345 | A successful pass appends each user once per hit, in input order. |
| UserFilter.FilterAllScales | src/main/java/com/kineticdata/bridgehub/adapter/kineticcore/KineticCoreUserHelper.java:311-346 | The filter keeps users in input order, each repeated by the product of its hit counts over the fields. |
| UserFilter.ScaleMember | src/main/java/com/kineticdata/bridgehub/adapter/kineticcore/KineticCoreUserHelper.java:322-344 | A user is in the repeated list exactly when it is in the input and its count is positive. |
| UserFilter.SurvivalPositive | src/main/java/com/kineticdata/bridgehub/adapter/kineticcore/KineticCoreUserHelper.java:311-346 | A user's product of counts is positive exactly when every field hits it. |
| UserFilter.FilteredMembers | src/main/java/com/kineticdata/bridgehub/adapter/kineticcore/KineticCoreUserHelper.java:286-349 | The qualifications are ANDed: a user is in the result exactly when it is in the input and every field hits it at least once. |
| UserFilter.ReadPartsOk | src/main/java/com/kineticdata/bridgehub/adapter/kineticcore/KineticCoreUserHelper.java:290-306 | Reading the qualifiers succeeds exactly when every part can be read. |
| UserFilter.ReadPartsKeeps | src/main/java/com/kineticdata/bridgehub/adapter/kineticcore/KineticCoreUserHelper.java:305 | A field no part names keeps the matchers it had. |
| UserFilter.ReadPartsLast | src/main/java/com/kineticdata/bridgehub/adapter/kineticcore/KineticCoreUserHelper.java:305 | A field's matchers come from the last part that names it. |
| UserFilter.PlainFieldHits | src/main/java/com/kineticdata/bridgehub/adapter/kineticcore/KineticCoreUserHelper.java:325-342 | A plain field's one value is tested against every matcher. |
| UserFilter.AttributeFieldHits | src/main/java/com/kineticdata/bridgehub/adapter/kineticcore/KineticCoreUserHelper.java:325-342 | An attribute field hits when one of the attribute's values hits; a missing attribute is the empty list, which only the empty value hits. |
| UserFilter.EmptyQueryDropsAll | src/main/java/com/kineticdata/bridgehub/adapter/kineticcore/KineticCoreUserHelper.java:256-257 | The empty query is one empty qualifier on the field `""`, which drops every user, so the search filters only a non-empty query. |
| UserFilter.NoneSurvive | src/main/java/com/kineticdata/bridgehub/adapter/kineticcore/KineticCoreUserHelper.java:328-331 | The empty qualifier on a field no user has drops every user. |
| SubmissionFilter.ReadPart | src/main/java/com/kineticdata/bridgehub/adapter/kineticcore/KineticCoreSubmissionHelper.java:504-527 | A part that splits is read and one that does not fails; a plain part adds its own field entry at the end, `pattern` and `fields` replace the remembered value (`fields` split at commas), and nothing else changes. |
| SubmissionFilter.ReadPartsOk | src/main/java/com/kineticdata/bridgehub/adapter/kineticcore/KineticCoreSubmissionHelper.java:496-528 | Reading the query succeeds exactly when every part splits. |
| SubmissionFilter.ReadPartsEntries | src/main/java/com/kineticdata/bridgehub/adapter/kineticcore/KineticCoreSubmissionHelper.java:504-528 | After reading, the entries are one per plain part, in query order, after the earlier ones. |
| SubmissionFilter.ReadPartsPattern | src/main/java/com/kineticdata/bridgehub/adapter/kineticcore/KineticCoreSubmissionHelper.java:510-511 | After reading, `pattern` is the value of the last part naming it, and unchanged when no part does. |
| SubmissionFilter.ReadPartsFields | src/main/java/com/kineticdata/bridgehub/adapter/kineticcore/KineticCoreSubmissionHelper.java:512-513 | After reading, `fields` is the comma split of the last part naming it, and unchanged when no part does. |
| SubmissionFilter.LastValueAt | src/main/java/com/kineticdata/bridgehub/adapter/kineticcore/KineticCoreSubmissionHelper.java:510-513 | A value that no later part overrides is the last value. |
| SubmissionFilter.LastValueNone | src/main/java/com/kineticdata/bridgehub/adapter/kineticcore/KineticCoreSubmissionHelper.java:510-513 | There is no last value exactly when no part names the field. |
| SubmissionFilter.PlainEntriesMembers | src/main/java/com/kineticdata/bridgehub/adapter/kineticcore/KineticCoreSubmissionHelper.java:514-527 | The plain entries are exactly the entries of the plain parts. |
| SubmissionFilter.EntriesShape | src/main/java/com/kineticdata/bridgehub/adapter/kineticcore/KineticCoreSubmissionHelper.java:496-541 | The entries of a query whose parts split are one per plain part, in query order, then the `pattern` entry over the last `fields` list with the last pattern when both are named; naming only one of them fails. |
| SubmissionFilter.FilteredByParts | src/main/java/com/kineticdata/bridgehub/adapter/kineticcore/KineticCoreSubmissionHelper.java:494-602 | A submission is kept exactly when it is in the input, every plain part's field hits it, and, when `pattern` and `fields` are named, some field of the last `fields` list has a value the last pattern's matcher hits. |
| SubmissionFilter.AllEntriesAppend | src/main/java/com/kineticdata/bridgehub/adapter/kineticcore/KineticCoreSubmissionHelper.java:545-599 | Two runs of entries pass a submission exactly when each run does. |
| SubmissionFilter.AllPlainEntries | src/main/java/com/kineticdata/bridgehub/adapter/kineticcore/KineticCoreSubmissionHelper.java:514-527 | Every plain entry passes a submission exactly when the entry of every plain part does. |
| SubmissionFilter.FieldValues | src/main/java/com/kineticdata/bridgehub/adapter/kineticcore/KineticCoreSubmissionHelper.java:572-574 | A plain field offers the one value the submission has for it. |
| SubmissionFilter.ReadEntries | src/main/java/com/kineticdata/bridgehub/adapter/kineticcore/KineticCoreSubmissionHelper.java:496-541 | The parts loop with the `pattern`/`fields` check computes the entries function. |
| SubmissionFilter.GetFieldValues | src/main/java/com/kineticdata/bridgehub/adapter/kineticcore/KineticCoreSubmissionHelper.java:564-574 | The method computes the field-values function. |
| SubmissionFilter.PassFieldLoop | src/main/java/com/kineticdata/bridgehub/adapter/kineticcore/KineticCoreSubmissionHelper.java:558-596 | The submissions loop for one field computes the one-field function. |
| SubmissionFilter.PassFieldsLoop | src/main/java/com/kineticdata/bridgehub/adapter/kineticcore/KineticCoreSubmissionHelper.java:548-597 | The loop over an entry's fields, each adding to the same list, computes the fields function. |
| SubmissionFilter.FilterSubmissions | src/main/java/com/kineticdata/bridgehub/adapter/kineticcore/KineticCoreSubmissionHelper.java:494-602 | The method computes the whole filter function. |
| SubmissionFilter.PassFieldMembers | src/main/java/com/kineticdata/bridgehub/adapter/kineticcore/KineticCoreSubmissionHelper.java:558-596 | A field keeps what was kept and adds the submissions it hits. |
| SubmissionFilter.PassFieldsMembers | src/main/java/com/kineticdata/bridgehub/adapter/kineticcore/KineticCoreSubmissionHelper.java:548-597 | An entry's fields are ORed: it keeps the submissions that some field hits. |
| SubmissionFilter.FilterEntriesMembers | src/main/java/com/kineticdata/bridgehub/adapter/kineticcore/KineticCoreSubmissionHelper.java:545-599 | The entries are ANDed: a submission survives when every entry has a field that hits it. |
| SubmissionFilter.FilteredMembers | src/main/java/com/kineticdata/bridgehub/adapter/kineticcore/KineticCoreSubmissionHelper.java:494-602 | The result holds exactly the submissions for which every entry has a field that hits; the empty query keeps all. |
| SubmissionFilter.PatternHit | src/main/java/com/kineticdata/bridgehub/adapter/kineticcore/KineticCoreSubmissionHelper.java:533 | The `pattern` matcher hits a value whose text contains the pattern ignoring case, with no line terminator around it. |
| SubmissionFilter.ReadPartsNames | src/main/java/com/kineticdata/bridgehub/adapter/kineticcore/KineticCoreSubmissionHelper.java:510-513 | After reading, `pattern` and `fields` are set exactly when some part names them. |
| SubmissionFilter.PatternNeedsFields | src/main/java/com/kineticdata/bridgehub/adapter/kineticcore/KineticCoreSubmissionHelper.java:532-541 | A query naming only one of `pattern` and `fields` fails, and one naming both or neither does not fail for that reason. |
| Ordering.DirOf | src/main/java/com/kineticdata/bridgehub/adapter/kineticcore/KineticCoreUserHelper.java:370 | Only the exact text `DESC` sorts descending; anything else ascends. |
| Ordering.SortKey | src/main/java/com/kineticdata/bridgehub/adapter/kineticcore/KineticCoreUserHelper.java:361-368 | A field's key is absent exactly when the record has no value, and is otherwise the value lower-cased. |
| Ordering.CompareKeys | src/main/java/com/kineticdata/bridgehub/adapter/kineticcore/KineticCoreUserHelper.java:371-373 | Comparing two keys gives -1, 0 or 1, 0 exactly for equal keys, and `null` sorts first. |
| Ordering.CompareKeysAntisymmetric | src/main/java/com/kineticdata/bridgehub/adapter/kineticcore/KineticCoreUserHelper.java:371-373 | Swapping two keys negates their comparison. |
| Ordering.CompareKeysTransitive | src/main/java/com/kineticdata/bridgehub/adapter/kineticcore/KineticCoreUserHelper.java:371-373 | The key comparison's not-after relation is transitive. |
| Ordering.OrderCompare | src/main/java/com/kineticdata/bridgehub/adapter/kineticcore/KineticCoreUserHelper.java:355-377 | The comparison over the whole order is -1, 0 or 1. |
| Ordering.CompareRecords | src/main/java/com/kineticdata/bridgehub/adapter/kineticcore/KineticCoreUserHelper.java:354-378 | The comparator's loop over the sort fields computes the comparison function. |
| Ordering.OrderCompareAntisymmetric | src/main/java/com/kineticdata/bridgehub/adapter/kineticcore/KineticCoreUserHelper.java:354-378 | Swapping the records negates the comparison. |
| Ordering.OrderCompareZero | src/main/java/com/kineticdata/bridgehub/adapter/kineticcore/KineticCoreUserHelper.java:354-378 | Two records compare equal exactly when they agree on every sort field. |
| Ordering.OrderCompareTransitive | src/main/java/com/kineticdata/bridgehub/adapter/kineticcore/KineticCoreUserHelper.java:354-378 | The comparison's not-after relation is transitive. |
| Ordering.EquivalentTogether | src/main/java/com/kineticdata/bridgehub/adapter/kineticcore/KineticCoreUserHelper.java:354-378 | Two records that compare equal to a third compare equal to each other. |
| Ordering.ComparatorIsTotalPreorder | src/main/java/com/kineticdata/bridgehub/adapter/kineticcore/KineticCoreUserHelper.java:352-379 | The comparator is antisymmetric and transitive, as `Collections.sort` requires. |
| Ordering.SortedByFacts | src/main/java/com/kineticdata/bridgehub/adapter/kineticcore/KineticCoreUserHelper.java:351-381 | The sorted list is a permutation of the input, in order, and stable: records that agree on every sort field keep their relative order. |
| Ordering.TiesAreSameKeys | src/main/java/com/kineticdata/bridgehub/adapter/kineticcore/KineticCoreUserHelper.java:354-378 | The records that tie with a given one are exactly those that agree with it on every sort field. |
| Ordering.InsertInPlace | src/main/java/com/kineticdata/bridgehub/adapter/kineticcore/KineticCoreUserHelper.java:352 | One pass of the in-place sort inserts the next record into the sorted prefix and leaves the rest of the array alone. |
| Ordering.SortRecords | src/main/java/com/kineticdata/bridgehub/adapter/kineticcore/KineticCoreUserHelper.java:351-381 | The array after sorting holds the sorted list of the records it held. |
| Sorting.Insert | src/main/java/com/kineticdata/bridgehub/adapter/kineticcore/KineticCoreUserHelper.java:352 | Inserting adds exactly one element. |
| Sorting.InsertPermutes | src/main/java/com/kineticdata/bridgehub/adapter/kineticcore/KineticCoreUserHelper.java:352 | Inserting adds exactly the inserted element to the multiset. |
| Sorting.InsertionSort | src/main/java/com/kineticdata/bridgehub/adapter/kineticcore/KineticCoreUserHelper.java:352 | Sorting keeps the length. |
| Sorting.InsertionSortPermutes | src/main/java/com/kineticdata/bridgehub/adapter/kineticcore/KineticCoreUserHelper.java:352 | Sorting is a permutation of its input. |
| Sorting.InsertionSortSnoc | src/main/java/com/kineticdata/bridgehub/adapter/kineticcore/KineticCoreUserHelper.java:352 | Sorting a list with one more element inserts it into the sorted rest. |
| Sorting.InsertSorted | src/main/java/com/kineticdata/bridgehub/adapter/kineticcore/KineticCoreUserHelper.java:352 | Inserting into a sorted list gives a sorted list. |
| Sorting.InsertionSortIsSorted | src/main/java/com/kineticdata/bridgehub/adapter/kineticcore/KineticCoreUserHelper.java:352 | The sorted list is in order. |
| Sorting.Ties | src/main/java/com/kineticdata/bridgehub/adapter/kineticcore/KineticCoreUserHelper.java:352 | The elements tying with a given one form a sub-list. |
| Sorting.InsertStable | src/main/java/com/kineticdata/bridgehub/adapter/kineticcore/KineticCoreUserHelper.java:352 | Inserting keeps the ties of every element as if the element were appended. |
| Sorting.InsertionSortIsStable | src/main/java/com/kineticdata/bridgehub/adapter/kineticcore/KineticCoreUserHelper.java:352 | Sorting is stable: the elements that tie with any given one keep their relative order. |
| Sorting.InsertAtPoint | src/main/java/com/kineticdata/bridgehub/adapter/kineticcore/KineticCoreUserHelper.java:352 | Inserting puts the element at its insertion point and keeps everything else in order. |
| Projection.FieldValue | src/main/java/com/kineticdata/bridgehub/adapter/kineticcore/KineticCoreUserHelper.java:176-182 | A plain field's value is the `toString` of the object's member. |
| Projection.ProjectAll | src/main/java/com/kineticdata/bridgehub/adapter/kineticcore/KineticCoreUserHelper.java:170-188 | A successful projection has one record per object. |
| Projection.CreateRecords | src/main/java/com/kineticdata/bridgehub/adapter/kineticcore/KineticCoreUserHelper.java:170-188 | The loops over the objects and the fields compute the projection function. |
| Projection.ProjectObject | src/main/java/com/kineticdata/bridgehub/adapter/kineticcore/KineticCoreUserHelper.java:176-184 | The loop over the fields of one user computes that user's record, or the first failing field's error. |
| Projection.ProjectErr | src/main/java/com/kineticdata/bridgehub/adapter/kineticcore/KineticCoreUserHelper.java:179 | A field whose value fails makes the whole record fail with that field's error. |
| Records.BuildPrefixErr | src/main/java/com/kineticdata/bridgehub/adapter/kineticcore/KineticCoreUserHelper.java:176-183 | Once a prefix of the fields fails, the record fails with the same error. |
| Projection.PrefixErr | src/main/java/com/kineticdata/bridgehub/adapter/kineticcore/KineticCoreUserHelper.java:173-185 | Once a prefix of the objects fails, the whole call fails with the same error. |
| Projection.ProjectFacts | src/main/java/com/kineticdata/bridgehub/adapter/kineticcore/KineticCoreUserHelper.java:175-184 | A record's keys are exactly the requested fields, each once, in order of first request, and each holds its own field's value. |
| Projection.ProjectOk | src/main/java/com/kineticdata/bridgehub/adapter/kineticcore/KineticCoreUserHelper.java:176-183 | A record fails only when some field's value fails. |
| Projection.ProjectAllAt | src/main/java/com/kineticdata/bridgehub/adapter/kineticcore/KineticCoreUserHelper.java:173-185 | The i-th record is the i-th object's record. |
| Projection.ProjectAllSnoc | src/main/java/com/kineticdata/bridgehub/adapter/kineticcore/KineticCoreUserHelper.java:173-185 | A successful projection is that of all but the last object, then the last object's record. |
| Projection.AttributeFieldValue | src/main/java/com/kineticdata/bridgehub/adapter/kineticcore/KineticCoreUserHelper.java:179 | `container[key]` takes the attribute's value list as JSON text, or `null` when the list is `null`. |
| Projection.PlainFieldValue | src/main/java/com/kineticdata/bridgehub/adapter/kineticcore/KineticCoreUserHelper.java:181 | A field without `[` takes the object's own member. |
| OffsetPaging.ItemRecord | src/main/java/com/kineticdata/bridgehub/adapter/kineticcore/KineticCoreFormHelper.java:154-155 | An object element gives its record, and an element that is neither an object nor `null` is a class-cast failure. |
| OffsetPaging.ItemRecords | src/main/java/com/kineticdata/bridgehub/adapter/kineticcore/KineticCoreFormHelper.java:151-169 | A successful list has one record per element. |
| OffsetPaging.CreateItemRecords | src/main/java/com/kineticdata/bridgehub/adapter/kineticcore/KineticCoreFormHelper.java:151-169 | The loop with the cast of each element computes the list function. |
| OffsetPaging.ItemRecordsErr | src/main/java/com/kineticdata/bridgehub/adapter/kineticcore/KineticCoreFormHelper.java:154-166 | Once a prefix of the elements fails, the whole array fails the same way. |
| OffsetPaging.ObjectItems | src/main/java/com/kineticdata/bridgehub/adapter/kineticcore/KineticCoreFormHelper.java:151-169 | An array of objects gives exactly the records of those objects. |
| OffsetPaging.CountOf | src/main/java/com/kineticdata/bridgehub/adapter/kineticcore/KineticCoreFormHelper.java:55-62 | The count succeeds exactly for an array, and is its length. |
| OffsetPaging.RetrieveCases | src/main/java/com/kineticdata/bridgehub/adapter/kineticcore/KineticCoreFormHelper.java:64-83 | Two or more forms is the ambiguity error; exactly one gives its record; no plural array gives the singular form's record. |
| OffsetPaging.Offset | src/main/java/com/kineticdata/bridgehub/adapter/kineticcore/KineticCoreFormHelper.java:93-96 | The offset is 0 without a token, and otherwise a 32-bit integer or a number-format failure. |
| OffsetPaging.Limit | src/main/java/com/kineticdata/bridgehub/adapter/kineticcore/KineticCoreFormHelper.java:98-100 | The limit is a 32-bit integer or a number-format failure. |
| OffsetPaging.SubList | src/main/java/com/kineticdata/bridgehub/adapter/kineticcore/KineticCoreFormHelper.java:107-108 | `subList` succeeds exactly for bounds inside the list the right way round, and gives that slice; otherwise it fails with the index or the argument error. |
| OffsetPaging.PageWindow | src/main/java/com/kineticdata/bridgehub/adapter/kineticcore/KineticCoreFormHelper.java:93-112 | The page is the records from the offset up to offset plus limit, cut at the end; `size` is the limit; a next token exists exactly when records remain, and it names where they start. |
| OffsetPaging.PageItems | src/main/java/com/kineticdata/bridgehub/adapter/kineticcore/KineticCoreFormHelper.java:107-108 | The page's items are the records from the offset to offset plus limit, cut at the end. |
| OffsetPaging.WholeList | src/main/java/com/kineticdata/bridgehub/adapter/kineticcore/KineticCoreFormHelper.java:93-112 | Without a token or a limit the page is the whole list and there is no next token. |
| OffsetPaging.NextPageContinues | src/main/java/com/kineticdata/bridgehub/adapter/kineticcore/KineticCoreFormHelper.java:102-108 | Asking again with the next token and the same limit gives the records right after this page, with nothing skipped and nothing repeated. |
| OffsetPaging.NextOffset | src/main/java/com/kineticdata/bridgehub/adapter/kineticcore/KineticCoreFormHelper.java:103-105 | The next token, read back, is the offset it was made from. |
| OffsetPaging.NegativeOffset | src/main/java/com/kineticdata/bridgehub/adapter/kineticcore/KineticCoreFormHelper.java:107-108 | A negative offset is outside the list. |
| OffsetPaging.OffsetPastEnd | src/main/java/com/kineticdata/bridgehub/adapter/kineticcore/KineticCoreFormHelper.java:98-108 | An offset past the end without a limit makes the limit negative, so the bounds are the wrong way round. |
| OffsetPaging.SearchAll | src/main/java/com/kineticdata/bridgehub/adapter/kineticcore/KineticCoreFormHelper.java:85-116 | A search without paging metadata returns one record for every element of the array. |
| V1Query.SearchPair | src/main/java/com/kineticdata/bridgehub/adapter/kineticcore/KineticCoreSubmissionHelper.java:299-302 | A search part fails exactly when it splits into nothing, with an index error. |
| V1Query.ReadQuery | src/main/java/com/kineticdata/bridgehub/adapter/kineticcore/KineticCoreSubmissionHelper.java:298-310 | The parts loop computes the query-reading function. |
| V1Query.PairTexts | src/main/java/com/kineticdata/bridgehub/adapter/kineticcore/KineticCoreSubmissionHelper.java:308 | Each passed parameter becomes its name, `=` and its value. |
| V1Query.BuildSubmissionSearch | src/main/java/com/kineticdata/bridgehub/adapter/kineticcore/KineticCoreSubmissionHelper.java:289-348 | The method computes the submission search call: the slug checks and the parameters appended after the query's own. |
| V1Query.BuildRecordSearch | src/main/java/com/kineticdata/bridgehub/adapter/kineticcore/KineticCoreRecordHelper.java:240-284 | The method computes the record search call. |
| V1Query.AddedParams | src/main/java/com/kineticdata/bridgehub/adapter/kineticcore/KineticCoreSubmissionHelper.java:312-329 | The appended parameters are `include`, the page size and the page token, in that order. |
| V1Query.WrapAdd | src/main/java/com/kineticdata/bridgehub/adapter/kineticcore/KineticCoreSubmissionHelper.java:258 | Adding in a Java `int` step by step wraps the same as wrapping the sum once. |
| V1Query.CountPages | src/main/java/com/kineticdata/bridgehub/adapter/kineticcore/KineticCoreSubmissionHelper.java:246-259 | One fetch per page, each with the base query and the previous page's token, and the page sizes added up in a Java `int`. |
| V1Query.CountSubmissions | src/main/java/com/kineticdata/bridgehub/adapter/kineticcore/KineticCoreSubmissionHelper.java:215-267 | A parent counts its children that pass the filter; otherwise the total over the server's pages, with one fetch per page. |
| V1Query.CountRecords | src/main/java/com/kineticdata/bridgehub/adapter/kineticcore/KineticCoreRecordHelper.java:196-238 | The total over the server's pages in a Java `int`, with one fetch per page, or the query's failure. |
| V1Query.RetrieveId | src/main/java/com/kineticdata/bridgehub/adapter/kineticcore/KineticCoreSubmissionHelper.java:64-71 | An id is found exactly when the query starts with `id=` in either case and has no line terminator after it; the id runs to the end or to the first `&`. |
| V1Query.RetrieveIdFound | src/main/java/com/kineticdata/bridgehub/adapter/kineticcore/KineticCoreSubmissionHelper.java:64-71 | An id without `&` or line terminators is found, alone or followed by more parameters. |
| V1Query.RetrievedRecord | src/main/java/com/kineticdata/bridgehub/adapter/kineticcore/KineticCoreSubmissionHelper.java:75-85 | More than one result is the ambiguity error, none gives the empty record, one gives its record. |
| V1Query.ReadPartsOk | src/main/java/com/kineticdata/bridgehub/adapter/kineticcore/KineticCoreSubmissionHelper.java:298-310 | Reading succeeds exactly when every part splits. |
| V1Query.ReadPartsParams | src/main/java/com/kineticdata/bridgehub/adapter/kineticcore/KineticCoreSubmissionHelper.java:307-309 | The passed parameters are the passed parts, in query order. |
| V1Query.ReadPartSlug | src/main/java/com/kineticdata/bridgehub/adapter/kineticcore/KineticCoreSubmissionHelper.java:303-306 | One part sets a taken-out name exactly when it names it, and leaves it otherwise. |
| V1Query.ReadPartsSlugAbsent | src/main/java/com/kineticdata/bridgehub/adapter/kineticcore/KineticCoreSubmissionHelper.java:303-306 | A taken-out name no part names keeps its value. |
| V1Query.ReadPartsSlugLast | src/main/java/com/kineticdata/bridgehub/adapter/kineticcore/KineticCoreSubmissionHelper.java:303-306 | A taken-out name that some part names holds the value of the last such part. |
| V1Query.SubmissionSearchShape | src/main/java/com/kineticdata/bridgehub/adapter/kineticcore/KineticCoreSubmissionHelper.java:289-348 | A search asks for children exactly when a part names `parent`; otherwise it fails exactly when no part names `kappSlug`, and passes the caller's other parameters in order followed by the appended ones. |
| V1Query.SlugPresent | src/main/java/com/kineticdata/bridgehub/adapter/kineticcore/KineticCoreSubmissionHelper.java:303-306 | A taken-out name has a value exactly when some part names it. |
| V1Query.RecordSearchShape | src/main/java/com/kineticdata/bridgehub/adapter/kineticcore/KineticCoreRecordHelper.java:240-284 | A record search fails exactly when no part names `datastoreSlug`, and otherwise passes the caller's parameters followed by `include=values,details`, the page size and the token. |
| V1Query.SearchLimit | src/main/java/com/kineticdata/bridgehub/adapter/kineticcore/KineticCoreSubmissionHelper.java:317-324 | The page size is the `pageSize` metadata, else the last non-empty `limit` part, else `1000`. |
| V1Query.SearchLimitOnce | src/main/java/com/kineticdata/bridgehub/adapter/kineticcore/KineticCoreSubmissionHelper.java:306-324 | Exactly one `limit` reaches the server, right after `include`. |
| V1Query.PassedNames | src/main/java/com/kineticdata/bridgehub/adapter/kineticcore/KineticCoreSubmissionHelper.java:303-309 | No passed parameter carries a taken-out or dropped name. |
| V1Query.LastValueUnique | src/main/java/com/kineticdata/bridgehub/adapter/kineticcore/KineticCoreSubmissionHelper.java:303-306 | The last value of a name is unique. |
| V1Query.SearchPairValue | src/main/java/com/kineticdata/bridgehub/adapter/kineticcore/KineticCoreSubmissionHelper.java:302 | A search part keeps every `=` after the first in its value. |
| V1Query.CountPairValue | src/main/java/com/kineticdata/bridgehub/adapter/kineticcore/KineticCoreSubmissionHelper.java:225-228 | A count part keeps only the piece up to the second `=`, trimmed. |
| V1Search.DefaultOrderFacts | src/main/java/com/kineticdata/bridgehub/adapter/kineticcore/KineticCoreSubmissionHelper.java:128-131 | The default order names each requested field once, in order, all ascending. |
| V1Search.PutAscending | src/main/java/com/kineticdata/bridgehub/adapter/kineticcore/KineticCoreSubmissionHelper.java:130 | Putting an ascending entry into an all-ascending order keeps it all ascending. |
| V1Search.BuildDefaultOrder | src/main/java/com/kineticdata/bridgehub/adapter/kineticcore/KineticCoreSubmissionHelper.java:128-131 | The loop computes the default order, whose keys are the requested fields without repeats. |
| V1Search.FindMissing | src/main/java/com/kineticdata/bridgehub/adapter/kineticcore/KineticCoreSubmissionHelper.java:137-146 | The loop stops at an order key that is not requested, exactly when there is one. |
| V1Search.SortFields | src/main/java/com/kineticdata/bridgehub/adapter/kineticcore/KineticCoreSubmissionHelper.java:141-142 | The re-projection's fields are without repeats and are exactly the requested fields and the order's keys. |
| V1Search.SortList | src/main/java/com/kineticdata/bridgehub/adapter/kineticcore/KineticCoreUserHelper.java:352 | Sorting the list in place gives the sorted list, a permutation of the input. |
| V1Search.Search | src/main/java/com/kineticdata/bridgehub/adapter/kineticcore/KineticCoreSubmissionHelper.java:117-158 | The method computes the sort-or-warn function. |
| V1Search.WarnsIffMorePages | src/main/java/com/kineticdata/bridgehub/adapter/kineticcore/KineticCoreSubmissionHelper.java:148-154 | There is a `warning` exactly when there is a further page; `size` is the number of items returned in the submission helper and the number of records listed in the datastore record helper, and the server's token is passed on. |
| V1Search.SizeIsRecordCount | src/main/java/com/kineticdata/bridgehub/adapter/kineticcore/KineticCoreRecordHelper.java:134 | When the projection makes one record per item, the listing has one record per item and `size` is the number of records listed. |
| V1Search.UnsortedWhenMorePages | src/main/java/com/kineticdata/bridgehub/adapter/kineticcore/KineticCoreSubmissionHelper.java:148-151 | With several pages the records are exactly the projection, in server order. |
| V1Search.SortedByAllFields | src/main/java/com/kineticdata/bridgehub/adapter/kineticcore/KineticCoreSubmissionHelper.java:126-132 | One page and no `order`: the records are a rearrangement of the projection in which every requested field ascends, the earlier fields deciding first. |
| V1Search.SortedByOrder | src/main/java/com/kineticdata/bridgehub/adapter/kineticcore/KineticCoreSubmissionHelper.java:133-147 | One page and an `order`: the records are sorted by it, from a projection holding every requested field and, in the submission helper, every field the order sorts on. |
| V1Search.UserListing | src/main/java/com/kineticdata/bridgehub/adapter/kineticcore/KineticCoreUserHelper.java:106-127 | The user listing fails exactly when the projection does. |
| V1Search.UserSearch | src/main/java/com/kineticdata/bridgehub/adapter/kineticcore/KineticCoreUserHelper.java:106-127 | The method computes the user listing function. |
| V1Search.UserListingSorted | src/main/java/com/kineticdata/bridgehub/adapter/kineticcore/KineticCoreUserHelper.java:109-123 | The listing is one record per user, sorted by the `order` or by every field ascending, and a rearrangement of the projection. |
| V1Search.ScanKinds | src/main/java/com/kineticdata/bridgehub/adapter/kineticcore/KineticCoreUserHelper.java:201-221 | The loop with its early exit finds exactly whether some field needs the attributes and whether some needs the profile attributes. |
| V1Search.NeedsCases | src/main/java/com/kineticdata/bridgehub/adapter/kineticcore/KineticCoreUserHelper.java:202-219 | A field needs the attributes when it is `attributes` or `attributes[...]`, and the profile attributes likewise, never both. |
| V1Search.HasDetailField | src/main/java/com/kineticdata/bridgehub/adapter/kineticcore/KineticCoreUserHelper.java:225 | The detail test holds exactly when some requested field is a detail field. |
| V1Search.ComputeUserInclude | src/main/java/com/kineticdata/bridgehub/adapter/kineticcore/KineticCoreUserHelper.java:197-226 | The appends compute the include-parameter function. |
| V1Search.BuildInclude | src/main/java/com/kineticdata/bridgehub/adapter/kineticcore/KineticCoreUserHelper.java:222-225 | The three appends give the wanted names joined after `include=`. |
| V1Search.AppendInclude | src/main/java/com/kineticdata/bridgehub/adapter/kineticcore/KineticCoreUserHelper.java:223 | An append gives a longer text that ends with the appended name. |
| V1Search.FirstIncluded | src/main/java/com/kineticdata/bridgehub/adapter/kineticcore/KineticCoreUserHelper.java:222 | After the first step the text is `include=attributes` or nothing. |
| V1Search.AppendIncluded | src/main/java/com/kineticdata/bridgehub/adapter/kineticcore/KineticCoreUserHelper.java:223-225 | One more name is appended after a comma, or after `include=` when it is the first. |
| V1Search.AttributeFieldIncluded | src/main/java/com/kineticdata/bridgehub/adapter/kineticcore/KineticCoreUserHelper.java:213-222 | A field `attributes[...]` makes the request start with `include=attributes`. |
| V1Search.IncludeAttributesFirst | src/main/java/com/kineticdata/bridgehub/adapter/kineticcore/KineticCoreUserHelper.java:222 | With the attributes wanted, the parameter starts with them. |
| V1Search.NeedsAttributes | src/main/java/com/kineticdata/bridgehub/adapter/kineticcore/KineticCoreUserHelper.java:204-215 | `attributes[name]` is a field that needs the attributes. |
| V1Search.DetailFieldIncluded | src/main/java/com/kineticdata/bridgehub/adapter/kineticcore/KineticCoreUserHelper.java:225 | A requested detail field makes the parameter end with `details`. |
| QualificationParser.EscapeAllLength | src/main/java/com/kineticdata/bridgehub/adapter/kineticcore/v2/KineticCoreQualificationParser.java:58 | Escaping lengthens the text by one for each backslash and each quotation mark in it. |

## Left out

- HTTP requests, authentication (section 2 of RFC 7617) and connection errors are not modelled. A server answer is a parameter: a parsed JSON value, a page of items or a list of children.
- JSON parsing (RFC 8259) is not modelled: a server answer arrives already parsed. Serialisation is modelled by `Json.JsonText`, with the string escapes of `JSONValue.toJSONString`; the key order of a JSON object follows its association list.
- JSON numbers are integers only. Floating-point values and their `toString` are left out.
- JSON objects are association lists, so `==` and `in` on them depend on key order, while `JSONObject` equality is `HashMap` equality and ignores it. This matters where the source compares objects: the `contains` test on kept submissions in `filterSubmissions`.
- `Strings.CompareStrings` and `SubmissionComparator.FieldsCompare` compare Unicode scalar values, while `String.compareTo` compares UTF-16 code units. The two orders differ only between a character above U+FFFF and one in U+E000–U+FFFF.
- `Strings.ParseInt32` accepts ASCII digits only, while `Integer.parseInt` also accepts the other Unicode decimal digits that `Character.digit` knows.
- Base64 page tokens (section 4 of RFC 4648) are not modelled. The form and API helpers' token is modelled as the decimal text that is encoded.
- URL encoding and decoding of query parameters are not modelled. Names and values pass through unchanged.
- `HashMap` and `HashSet` iteration orders are not modelled. They are fixed to first insertion, which affects the order in which `filterUsers`, `filterSubmissions` and the re-projection of sort fields visit entries.
- Placeholder substitution in qualifications, `BridgeUtils.parseOrder` and `BridgeUtils.getNestedFields` are library code and are not part of this model. The parsed order and the projection are parameters.
- Java regular expressions are not modelled in general. Only the patterns the adapter compiles are modelled: the wildcard patterns, the bracket patterns and the id patterns. `toLowerCase` and `equalsIgnoreCase` are modelled as ASCII case folding.
- The version 2 `search` post-processing (lines 381-427 of `v2/KineticCoreAdapter.java`) is not modelled. This is the client-side sort and page cut applied when the server cannot page in order.
- `V2Results.AdapterRetrieve`: it does not distinguish the ambiguity error from the parse error that the adapter's catch-all turns it into. It states only that the adapter fails exactly when the helper does.
- `OffsetPaging.PageWindow`: it does not model the 32-bit wrap-around of `pageToken + limit`. It requires the sum to fit in an `int`.
- The shared mutable pagination fields of a mapping are modelled as a value passed to each call.
- Structure names are compared by content. The source compares some of them with `==` on strings.
- Plugin lifecycle, configuration properties and logging are not modelled.
- `V2Search.SearchPlan` and `V2Search.RetrieveParams` use the corrected members of the findings below, so that the rest of the model follows the evidently intended behaviour.

## Findings

| source | as written | input that shows it | evidently intended | confidence | as-written member | corrected member |
|---|---|---|---|---|---|---|
| src/main/java/com/kineticdata/bridgehub/adapter/kineticcore/v2/KineticCoreAdapter.java:445-460 | `addImplicitIncludes` builds the union of the caller's `include` and the implicit includes but never stores it, so a caller's `include` is sent unchanged | `include=fields` on a structure with implicit includes `details,attributes` sends `fields` | send `fields,details,attributes`, as `buildQuery` merges | not executed | V2Adapter.ImplicitIncludesDropped | V2Adapter.MergedIncludeMatchesQuery |
| src/main/java/com/kineticdata/bridgehub/adapter/kineticcore/v2/KineticCoreAdapter.java:334 | the timeline guard checks the query only when the order does NOT have exactly one item, and reads the first item of an empty order | `Submissions` with order `createdAt ASC` and a query containing `createdAt` is unsupported; an empty order throws | a one-item order on the query's own ordering field is supported, and another length is not | not executed | V2Search.TimelineGuardInverted | V2Search.Supported |
