# DiscourseApi client core, modelled in Dafny

This project models the rules inside the DiscourseApi C# client that do not
depend on the network. The client talks to a Discourse forum over HTTP and
JSON. The modelled rules are:

- how it builds request URIs: `Combine`, `makeUri`, `QueryParams` and `AddGetParams`;
- how it flattens an object into a form body: `ToCollection`, `ToJsonString` and `IsNullOrEmpty`;
- which headers and which body shape a request gets;
- how it decides, after each response, whether to retry, follow a redirect or return;
- how it turns a response body into a JSON object and an `ApiException` message;
- how paged lists (`ApiList<T>` and the topic, user, group and group-member lists) move their cursor, fetch the next chunk and walk every item;
- how the `Permissions` map of a category stores levels;
- how `Settings.Validate` lists missing settings.

JSON tokens are a small datatype (`Json.Token`), and an object is an ordered
list of properties, as `JObject` keeps them. Exceptions are `Err` values of
`Json.Exception`. C# `int` arithmetic that can overflow is written out with
`Text.Wrap32`.

Three things are parameters of the model rather than code inside it:

- URI escaping and unescaping (`Query.Escaping`); `Query.Plain` names the real escaping on unreserved text;
- JSON text parsing (`Responses.JsonParser`);
- the server (`Listing.Server`, which stands for `SendMessageAsync`).

Modules, one file each: `Wrappers`, `Text`, `Json`, `Query`, `Form`,
`Settings`, `Requests`, `Retry`, `Responses`, `Paging`, `Topics`, `Users`,
`Groups`, `Listing` and `Categories`.

A few behaviours of the code are easy to misread, and the model follows the
code as written:

- The 5xx backoff is declared inside the retry loop and doubled before use, so every wait is 2000 ms (see Findings).
- `AddGetParams` rewrites the URI with `?` even when no pairs remain.
- `MetaData.Uri` is the URI first asked for, not the one after a redirect, because `SendMessageAsync` passes its own `uri` on.

## Model

| member | source | states |
|---|---|---|
| Text.SplitJoin | DiscourseApi/Group.cs:135-137 | Joining names that contain no separator, then splitting at that separator, gives the names back. |
| Text.IntToString | DiscourseApi/Api.cs:259 | The decimal `ToString()` of an int is non-empty digits, with a leading `-` exactly for negatives. |
| Text.Wrap32 | DiscourseApi/ApiEntry.cs:220 | Unchecked 32-bit wrap: the result is an int32, congruent to the input modulo 2^32, and the input itself when it fits. |
| Text.ParseInt | DiscourseApi/Topic.cs:50 | `int.Parse`: a null string throws ArgumentNull, and any value it returns is an int32. |
| Text.ParseIntRoundTrip | DiscourseApi/User.cs:203 | `int.Parse` of the decimal text of any int32 gives that int back. |
| Json.PutGet | DiscourseApi/Api.cs:397 | `j[key] = v` makes `j[key]` read `v`, and every other key reads as before. |
| Json.RemoveGet | DiscourseApi/Group.cs:30 | After `Remove(key)` the key is absent, and every other key reads as before. |
| Json.ToJsonString | DiscourseApi/ApiEntry.cs:36-43 | A boolean renders as `true`/`false`; every other token renders as its `ToString()`. |
| Json.ToJsonStringDiffersOnlyOnBooleans | DiscourseApi/ApiEntry.cs:36-43 | `ToJsonString` differs from `ToString()` exactly on booleans. |
| Json.IsNullOrEmpty | DiscourseApi/ApiEntry.cs:100-106 | True exactly for null, a JSON null, the empty string, the empty array and the empty object. |
| Query.Combine | DiscourseApi/Api.cs:220-222 | When no escaped argument contains `/`, splitting the result at `/` gives the escaped arguments back. |
| Query.MakeUri | DiscourseApi/Api.cs:417-425 | A URI with an `http://` or `https://` scheme is kept; anything else gets the server URI in front. |
| Query.MakeUriIdempotent | DiscourseApi/Api.cs:417-425 | With an http(s) server URI, applying `makeUri` twice is the same as once. |
| Query.AssignLookup | DiscourseApi/Api.cs:237 | `query[k] = v` makes `k` read `v`, leaves other keys alone, adds only `k` and keeps keys unique. |
| Query.DropLookup | DiscourseApi/Api.cs:257 | `query.Remove(k)` makes `k` absent, leaves other keys alone and keeps keys unique. |
| Query.QueryParams | DiscourseApi/Api.cs:231-240 | The loop over the query's segments computes the parsed dictionary, and its keys are unique. |
| Query.ParseSegmentsLastWins | DiscourseApi/Api.cs:234-238 | Each key maps to its last binding: empty segments are skipped, and a segment without `=` binds null. |
| Query.MergeLookup | DiscourseApi/Api.cs:253-261 | After merging, a key's last mention decides: an empty value removes it, any other sets its `ToString()`, and unmentioned keys keep their value. |
| Query.WithQuery | DiscourseApi/Api.cs:261 | Rewriting succeeds exactly when no value is null; otherwise it throws ArgumentNull. |
| Query.AddGetParams | DiscourseApi/Api.cs:251-264 | Null parameters leave the URI unchanged; otherwise the URI's query is merged with the parameters and written back. |
| Query.ParseSegmentsOfPairs | DiscourseApi/Api.cs:231-240 | Parsing the pairs written for a well-formed dictionary gives that dictionary back. |
| Query.RoundTrip | DiscourseApi/Api.cs:231-264 | For any unique, well-formed dictionary, `QueryParams` of the written URI gives the dictionary back. |
| Query.PlainRoundTrip | DiscourseApi/Api.cs:231-264 | With the real escaping and unreserved keys and values, writing then parsing a query is the identity. |
| Query.MergeWellFormed | DiscourseApi/Api.cs:253-260 | Merging unreserved parameters keeps a query that reads back cleanly. |
| Query.AddGetParamsReadBack | DiscourseApi/Api.cs:231-264 | `QueryParams(AddGetParams(uri, ps))` equals `QueryParams(uri)` merged with `ps`. |
| Form.AddMembers | DiscourseApi/ApiEntry.cs:55-57 | The inner loop appends `name[sub]` pairs for the object's members, in order. |
| Form.AddElements | DiscourseApi/ApiEntry.cs:61-62 | The inner loop appends one `name[]` pair per array element, in order. |
| Form.ToCollection | DiscourseApi/ApiEntry.cs:50-70 | The loop yields exactly the flattened pairs of the object's properties, in order. |
| Form.FormPairsAppend | DiscourseApi/ApiEntry.cs:52 | The pairs of two property lists are the pairs of each, one after the other. |
| Form.ObjectPairsExactly | DiscourseApi/ApiEntry.cs:54-58 | An object property gives `name[sub]` = `ToJsonString` of a member exactly for its non-null members. |
| Form.ArrayPairsOnePerElement | DiscourseApi/ApiEntry.cs:60-62 | An array property gives one `name[]` pair per element, in order, nulls included. |
| Form.FormPairsExactly | DiscourseApi/ApiEntry.cs:50-70 | A pair is in the body exactly when some property gives it. |
| Form.StringProperty | DiscourseApi/ApiEntry.cs:66-67 | A string property becomes a single pair holding its name and its text. |
| Form.FlattenIdempotent | DiscourseApi/ApiEntry.cs:50-70 | Flattening a property list that is already flat gives the same pairs; a fact about the model's lists, which may repeat a name where a `JObject` cannot. |
| Form.FormPairsFlat | DiscourseApi/ApiEntry.cs:50-70 | Flattening twice is the same as flattening once, for the model's property lists. |
| Settings.Validate | DiscourseApi/Settings.cs:117-132 | The errors are the failed checks' messages in order, and the list is empty exactly when all four settings are present. |
| Settings.FailuresCount | DiscourseApi/Settings.cs:117-132 | There is one error per failing check, and a check's message appears exactly when it fails. |
| Settings.MessageOutside | DiscourseApi/Settings.cs:117-132 | A check that is not run never reports. |
| Settings.EmptyKeyAccepted | DiscourseApi/Settings.cs:125-129 | An empty `ApiKey` passes validation, but an empty `ApiUsername` does not. |
| Requests.ValuesAppend | DiscourseApi/Api.cs:304-309 | The values of a header over two header lists are the values over each, in order. |
| Requests.HeadersSent | DiscourseApi/Api.cs:304-309 | `Api-Key` and `Api-Username` are sent only when non-empty; `Accept: application/json` and one `User-Agent` are always sent. |
| Requests.BodyFor | DiscourseApi/Api.cs:310-327 | A null body sends nothing, a file is streamed, an `HttpContent` is passed on unchanged, a string throws ArgumentException, and an object is sent as the form pairs `ToCollection` flattens it into. |
| Requests.StringBodyRefused | DiscourseApi/Api.cs:310-327 | As written, a string body throws ArgumentException; as documented, it would be sent as text. |
| Requests.IntendedAgreesElsewhere | DiscourseApi/Api.cs:310-327 | The documented and the written body choice differ on strings only. |
| Retry.RateLimitDelay | DiscourseApi/Api.cs:346-357 | The wait after a 429 is exactly 5000 ms when `Retry-After` is missing, empty or not an integer; otherwise it is 1000 times its first value (wrapped to 32 bits) when that exceeds 5000, and 5000 when it does not. |
| Retry.FinalStatusReturned | DiscourseApi/Api.cs:365-366 | Any status other than 302, 429 and 502-504 is handed back at once, after one request and no wait. |
| Retry.RateLimited | DiscourseApi/Api.cs:346-357 | A 429 waits `RateLimitDelay` of its `Retry-After` header and then resends to the same URI. |
| Retry.RateLimitedWaitsFloor | DiscourseApi/Api.cs:346-357 | A 429 with no `Retry-After` waits exactly 5000 ms and then resends to the same URI. |
| Retry.Send | DiscourseApi/Api.cs:293-373 | The send loop produces the as-written outcome: the URIs sent, the delays and how it ended. |
| Retry.DelaysPositive | DiscourseApi/Api.cs:341-368 | Every wait between attempts is at least 1 ms. |
| Retry.Attempts | DiscourseApi/Api.cs:293-373 | There is one attempt per response used and one delay between attempts; the first goes to the given URI. |
| Retry.AsWrittenDeliversOnlyFinal | DiscourseApi/Api.cs:341-368 | A response handed back is never a 302, a 429 or a 502/503/504. |
| Retry.GatewayRetriesForever | DiscourseApi/Api.cs:330-364 | As written, any run of 5xx gateway errors is retried every time, after 2000 ms each. |
| Retry.GatewayGivesUpAfterFour | DiscourseApi/Api.cs:358-364 | With the backoff kept across attempts, five gateway errors are answered by waits of 2000, 4000, 8000 and 16000 ms, and the fifth is returned. |
| Retry.RedirectFollowed | DiscourseApi/Api.cs:342-345 | A 302 is followed to its absolute `Location` after 1 ms; a missing location throws NullReference, and a relative one throws InvalidOperation. |
| Retry.RetryAfterHonoured | DiscourseApi/Api.cs:349-355 | A `Retry-After` of n seconds gives a wait of 1000·n ms when that is above 5000 ms and fits in an int32. |
| Retry.RetryAfterOverflowIgnored | DiscourseApi/Api.cs:351-353 | A `Retry-After` whose product wraps to a non-positive int leaves the wait at 5000 ms. |
| Responses.Classify | DiscourseApi/Api.cs:381-392 | A body starting with `{` is parsed as an object; one starting with `[` is parsed as an array and kept under `List`, and a parse failure is passed on; any other body becomes an empty object when it is empty, and `content` otherwise. |
| Responses.GetMessageExtends | DiscourseApi/Api.cs:433-440 | The reason phrase always opens the message, and it is the whole message exactly when the result has no `errors` array. |
| Responses.ParseResponse | DiscourseApi/Api.cs:379-403 | An object is returned only for a 2xx status: a parse failure is passed on, a 2xx status returns the built object with the client's `MetaData`, and any other status throws `ApiException` with the reason phrase and that object. |
| Responses.ObjectBodyReturned | DiscourseApi/Api.cs:382-403 | A successful response whose body is a JSON object returns it, with every key but `MetaData` as the server sent it. |
| Responses.ArrayBodyListed | DiscourseApi/Api.cs:384-403 | A successful response whose body is a JSON array returns an object holding that array under `List`, and no other key but `MetaData`. |
| Responses.MetaDataOverwritten | DiscourseApi/Api.cs:393-397 | `MetaData` is always the client's own (`Uri`, plus `Modified` when the header is present); every other key of the body is kept. |
| Responses.FailureThrows | DiscourseApi/Api.cs:400-401 | A failing status throws `ApiException` whose message starts with the reason phrase. |
| Responses.ConvertTo | DiscourseApi/Api.cs:404-415 | An object with no `MetaData` throws NullReference; one whose `MetaData.Error` is set throws `ApiException` with the error's message and the object; otherwise the object itself is returned. |
| Responses.ParsedHasNoEmbeddedError | DiscourseApi/Api.cs:393-415 | `convertTo` never throws on an object built from a successful response. |
| Paging.EmptyList | DiscourseApi/ApiEntry.cs:201-207 | An empty list has no more data. |
| Paging.NextPageUrl | DiscourseApi/ApiEntry.cs:222-236 | There is no next URL exactly when there is no more data; a group list returns its stored URL. |
| Paging.CursorParamsUnreserved | DiscourseApi/ApiEntry.cs:227-233 | The cursor parameters are unreserved text. |
| Paging.NextPageCursor | DiscourseApi/ApiEntry.cs:222-236 | The next URL's query carries `page + 1` in page mode, or the limit and `offset = RetrievedCount` otherwise; every other query key is unchanged. |
| Paging.IntField | DiscourseApi/ApiEntry.cs:12-21 | A deserialised int field keeps the class default when the property is absent or null; a JSON int is read exactly when it fits in an int32. |
| Paging.ToInt32 | DiscourseApi/Group.cs:32-34 | `(int)token` returns an int32, and an in-range int is returned as it is. |
| Paging.Unknown | DiscourseApi/ApiEntry.cs:114-118 | The leftover properties include no name from the given set, and every property with any other name reads there as in the body. |
| Paging.DeserializedFields | DiscourseApi/ApiEntry.cs:191-195 | A list read from JSON has its own kind, and takes `page` and `perPage` from the body, with defaults 0 and 100. |
| Paging.DeserializedAdditional | DiscourseApi/ApiEntry.cs:114-118 | `AdditionalData` after reading is exactly the body's properties that no settable field or `MetaData` takes, with `Error` among them because it is `[JsonIgnore]`. |
| Paging.NothingUnknown | DiscourseApi/ApiEntry.cs:114-118 | A body whose every property is one of the type's own leaves nothing for `AdditionalData`, which the model reads as the dictionary staying null. |
| Paging.DeserializedKeepsUnknown | DiscourseApi/ApiEntry.cs:114-118 | A list read from JSON keeps in `AdditionalData` every body property that no field takes. |
| Paging.DefaultsUnlessSupplied | DiscourseApi/ApiEntry.cs:185-195 | With no `Request`, `page` or `perPage` in the body, a list has limit 100, offset 0, page 0 and 100 per page. |
| Paging.AttachPostRequest | DiscourseApi/Api.cs:65-73 | Attaching the request fails exactly when the post parameters are null. |
| Paging.RequestRoundTrip | DiscourseApi/Api.cs:93-98 | A `ListRequest` written by `ToJObject` reads back as itself. |
| Paging.PostedRequestRoundTrip | DiscourseApi/Api.cs:65-73 | A request written with its post parameters reads back with them. |
| Paging.GetRequestReadBack | DiscourseApi/Api.cs:93-98 | A list fetched by `GetAsync<T>` carries the get parameters as its request, or the default request. |
| Paging.PostRequestReadBack | DiscourseApi/Api.cs:65-73 | A list fetched by `PostAsync<T>` carries the request with the posted body as its `PostParameters`. |
| Paging.DeserializedNext | DiscourseApi/Group.cs:16 | A group list read from JSON keeps the `NextPageUrl` string its body holds, and null when the body holds none. |
| Paging.ReadUriPage | DiscourseApi/Topic.cs:49-50 | The statements that read `page` from the URI compute the page step. |
| Paging.UriPageRead | DiscourseApi/User.cs:202-203 | Only `page` changes: it is kept without a `page` parameter, set to n for the text of n, and a bad value throws. |
| Topics.Convert | DiscourseApi/Topic.cs:47-54 | The step-by-step `Convert` computes the converted topic list. |
| Topics.ConvertedFromTopicList | DiscourseApi/Topic.cs:25-54 | A topic list has the page size and topics of `topic_list` and the page of its URI, and has more data exactly when the page is full. |
| Topics.NextPageIsNext | DiscourseApi/Topic.cs:30-54 | The list read from `NextPageUrl` has page number `page + 1`. |
| Topics.ListAllQuery | DiscourseApi/Topic.cs:202-206 | The query always sends `page`, and sends `no_subcategories=true` exactly when subcategories are excluded. |
| Users.Convert | DiscourseApi/User.cs:200-205 | The step-by-step `Convert` computes the converted user list. |
| Users.NoPageMeansOffsets | DiscourseApi/User.cs:200-205 | Without a `page` parameter, a user list is paged by offset. |
| Users.BadPageThrows | DiscourseApi/User.cs:202-203 | A `page` parameter that is not an integer makes `Convert` throw. |
| Users.ListAllSends | DiscourseApi/User.cs:284-290 | `ListAll` sends `ascending` as `True`/`False`, `page` as 1, and `order` unless it is null or empty. |
| Users.GetByEmailSends | DiscourseApi/User.cs:272-277 | `GetByEmail` sends `page` as 1, and `email` unless it is null or empty. |
| Users.ListAllPagesByNumber | DiscourseApi/User.cs:284-291 | The list `ListAll` reads is paged by number, from page 1. |
| Groups.ConvertList | DiscourseApi/Group.cs:9-14 | The step-by-step `Convert` computes the converted group list. |
| Groups.GroupListFields | DiscourseApi/Group.cs:9-14 | A group list counts `total_rows_groups` (which must be present) and lists `groups`. |
| Groups.GroupListNextIsStored | DiscourseApi/Group.cs:16 | A group list's next URL is the one its body stored, and null when it stored none. |
| Groups.ConvertMembers | DiscourseApi/Group.cs:27-36 | The step-by-step `Convert` computes the converted member list. |
| Groups.MembersMoved | DiscourseApi/Group.cs:29-34 | `members` moves from `AdditionalData` to `List`, other keys stay, and total, limit and offset come from `meta`. |
| Groups.MembersNeedExtraData | DiscourseApi/Group.cs:27-29 | A member-list body with no property outside the class's own leaves `AdditionalData` null, and the conversion fails with a null reference. |
| Groups.MembersFromBody | DiscourseApi/Group.cs:27-36 | A member list converts only when the server's body has `members` and an object `meta`; its items are the `members` array, and its total, limit and offset are `meta`'s. |
| Groups.MembersFollowServerCursor | DiscourseApi/Group.cs:31-34 | Offset paging of members asks for the server's limit, from the server's offset plus that limit. |
| Groups.Create | DiscourseApi/Group.cs:125-130 | A null or empty owner list becomes the API user, and the data is posted wrapped under `group`. |
| Groups.CreateNamed | DiscourseApi/Group.cs:117-123 | A group created by name and title is owned by the API user. |
| Groups.OwnersPosted | DiscourseApi/Group.cs:126-129 | The form body of a created group carries `group[owner_usernames]`. |
| Groups.UsernamesSplit | DiscourseApi/Group.cs:134-137 | Splitting `usernames` at the commas gives the names back. |
| Listing.GetNext | DiscourseApi/ApiEntry.cs:247-253 | There is no next chunk exactly when there is no more data; more data with no URL fails the send. |
| Listing.GetNextAsksOnce | DiscourseApi/ApiEntry.cs:247-252 | The next chunk depends only on one request: to `NextPageUrl`, with the list's own body, by GET exactly when that body is null. |
| Listing.All | DiscourseApi/ApiEntry.cs:260-267 | The loop yields every chunk's items in order until a null or empty chunk, a failure or the consumer stops; a failed fetch surfaces wrapped in `AggregateException`, as `.Result` rethrows it. |
| Listing.Yield | DiscourseApi/ApiEntry.cs:263-264 | The inner loop yields the chunk's items in order. |
| Listing.WalkFurther | DiscourseApi/ApiEntry.cs:260-267 | Reading one more chunk never takes back an item, and a walk that did not pause is already complete. |
| Listing.LastChunkEndsWalk | DiscourseApi/ApiEntry.cs:247-267 | A non-empty chunk with no more data is the last one: the walk yields exactly its items. |
| Listing.GroupWalkStalls | DiscourseApi/Group.cs:16 | A group list with more data and no stored URL yields its first chunk and then fails with an `AggregateException` around `InvalidOperationException`. |
| Listing.PlainConvertForgetsCursor | DiscourseApi/ApiEntry.cs:247-275 | The base `Convert` takes the next chunk's cursor from the body only: without `Request` or `page` it asks for offset 100 again. |
| Categories.SetThenGet | DiscourseApi/Category.cs:45-55 | Reading a level just set gives it back; setting `None` removes the group; other groups are unchanged. |
| Categories.AssignedStored | DiscourseApi/Category.cs:49-54 | The setter keeps groups distinct and never stores level `None`. |
| Categories.AppliedStored | DiscourseApi/Category.cs:26-34 | Building from a list of permissions keeps groups distinct and never stores level `None`. |
| Categories.LaterEntriesWin | DiscourseApi/Category.cs:26-34 | Building from a list applies entries in order: the last entry for a group wins, and unnamed groups keep their level. |
| Categories.ListExactly | DiscourseApi/Category.cs:36-43 | `List` holds a group with a level exactly when the indexer reads that level, so it never lists `None`. |
| Categories.Permissions.Set | DiscourseApi/Category.cs:49-54 | The indexer's setter removes on `None`, stores any other level, and keeps the object valid. |
| Categories.Permissions.constructor | DiscourseApi/Category.cs:26-34 | Building from a list applies each entry through the indexer, in order. |
| Categories.CategoryCommon.constructor | DiscourseApi/Category.cs:58-66 | A new category has a null name, colour `0088CC` and text colour `FFFFFF`. |

## Left out

- HTTP, sockets, the delay before each call (`DelayBetweenApiCalls`), logging and disposal are not modelled. `Task.Delay` becomes the list of delays in `Retry.Outcome`.
- URI escaping, unescaping and JSON text parsing are parameters, not implementations. The model does not check that `Uri.EscapeUriString` is inverted by `Uri.UnescapeDataString`; the round trips assume it through `Query.Plain`.
- `new Uri(uri)` in `QueryParams` throws `UriFormatException` for a relative URI. The model takes the query after the first `?` of any string and does not normalise the URI the way `Uri` does.
- The `Dictionary` in `QueryParams` is modelled as an ordered list in which a new key is appended. The .NET dictionary may reuse a freed slot after `Remove`, so the key order of a rewritten query may differ.
- A `Location` header's `AbsoluteUri` is taken as given; relative locations are a separate case that throws.
- A null `ApplicationName` as `User-Agent` is modelled as an empty header value; `HttpHeaders.Add` would refuse it.
- The file-stream body's content type, disposition and length headers are not modelled; the body is the file path.
- Newtonsoft deserialisation is simplified in `Paging.Deserialize`. A JSON null keeps a field's default, as `NullValueHandling.Ignore` does; a string is not accepted for an int field; unknown properties go to `AdditionalData`.
- Groups.MembersMovedOut: `meta[...].Value<int>()` is modelled with the same conversion as `(int)token`; the exception types of `Value<int>` on a bad token are approximated.
- Paging.Known: the get-only `Count`, `RetrievedCount` and `HasMoreData` are treated as taken by their properties, so a body value under those names is dropped rather than kept in `AdditionalData`; the reader's handling of properties without a setter is not modelled further. `Error` is `[JsonIgnore]` and is not in the set, so a body `Error` stays in `AdditionalData`.
- Paging.ListPage: a null `AdditionalData` is represented by an empty one; a dictionary the reader created always holds at least one property, so the two cannot be confused after reading.
- Groups.GroupsField and Groups.MemberList: a JSON null list is read as an empty list rather than a null `List`.
- Topics.TopicListField: a `topic_list` without `topics`, or with `"topics": null`, is read as an empty list. In the source `TopicList.topics` has no initialiser, so `List` is then null and the next `Count` or `HasMoreData` throws NullReference. In the model the walk ends as `Exhausted` instead of failing with NullReference. A null `List` would have to be an option in every list operation, so it is not modelled.
- Paging.NextPageUrl and Paging.UriPage: a page with no `MetaData.Uri` fails with NullReference. That is right when `MetaData` itself is null. When `MetaData` is there but its `Uri` is null, `QueryParams(null)` calls `new Uri(null)`, which throws ArgumentNullException. The model keeps a single optional URI and does not tell the two cases apart.
- Json.Serialize and Json.Render: objects and arrays print as compact JSON without escaping, where `JToken.ToString()` indents and escapes. This affects nested values in form fields (`ToJsonString`) and the `errors` text in `GetMessage`.
- Responses.ConvertTo: a `MetaData` without a `Uri` is not told apart; an `ApiError` with a null message gives an empty message where the source would pass null.
- Responses.MetaData: the `Modified` date is kept as text; parsing it into a `DateTime` is not modelled.
- Categories.LevelOf: a stored value that is not an int reads as `None`, where the cast would throw. The class invariant `Valid` keeps every stored value an int.
- Groups.UpdateGroupParams: only `name`, `title` and `owner_usernames` of the many group fields are modelled, since `Create` reads and writes only those.
- Listing.All: the lazy iterator becomes a loop with `fuel`, the number of further chunks the consumer reads; a consumer that stops in the middle of a chunk is not modelled.
- Listing.Server: the response body that `SendMessageAsync` returns is a parameter; a send with no URI is modelled as `InvalidOperation`.

## Findings

| source | as written | input that shows it | evidently intended | confidence | as-written member | corrected member |
|---|---|---|---|---|---|---|
| DiscourseApi/Api.cs:330,358-364 | `int backoff = 1000;` is declared inside the retry loop, so each 502/503/504 doubles a fresh 1000 to 2000. The `delay > 16000` give-up branch can never run, and gateway errors are retried without end. | five 503 responses in a row: five retries, each after 2000 ms, and none of them is returned | the backoff doubles across attempts (2000, 4000, 8000, 16000 ms), and the response is returned once the wait would pass 16000 ms | high, not executed | Retry.GatewayRetriesForever | Retry.GatewayGivesUpAfterFour |
| DiscourseApi/Api.cs:274,323-326 | The method's documentation says a string body is sent as is, as text/plain. The code has no string case, so a string reaches `ToCollection`, whose `ToJObject` throws ArgumentException. | `postParameters = "hello"` | the string is sent as a text/plain body | medium, not executed | Requests.StringBodyRefused | Requests.IntendedBodyFor |
