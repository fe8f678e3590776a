# Task list with push reminders — a Dafny model

This project models the core of a small progressive web app: a browser
task list that can subscribe to Web Push notifications, and the Express
server that stores the push subscriptions and fans notifications out to
them.

The model covers three parts of the app.

- **Server** (`server.dfy`): the in-memory subscription registry and
  its three endpoints. `POST /subscribe` adds a subscription unless one
  with the same endpoint is already stored. `POST /unsubscribe` removes
  every entry with the given endpoint. `POST /send-notification` checks
  `title` and `body`, then sends one push per stored subscription and
  reports one result per subscription, in the order the sends settle.
  The push transport is the parameter `deliver`. The settlement order
  is the parameter `completion`, a permutation of the registry
  positions.
- **Client list logic** (`tasks.dfy`, `key_decoding.dfy`):
  - `addTask`, `toggleTask` and `deleteTask`;
  - the three-way view filter of `renderTasks`, and the index that each
    rendered row passes back;
  - the periodic reminder;
  - the string handling of `urlBase64ToUint8Array`, where the browser's
    `atob` is a parameter.
- **Service worker** (`service_worker.dfy`):
  - the `fetch` routing: API requests pass through, the app shell is
    served cache-first and everything else network-first;
  - what the network-first path writes into the dynamic cache;
  - which caches `activate` deletes.

  Cache storage is an ordered list of named caches. The network is a
  parameter holding the single outcome of `fetch`.

The supporting modules are:

- `seqs.dfy`: filtering, subsequences, permutations and maps over
  sequences.
- `js.dfy`: JavaScript values and truthiness.
- `text.dfy`:
  - `String.prototype.trim` over the ECMAScript white-space and
    line-terminator characters;
  - prefix tests;
  - decimal rendering of a count.

A JavaScript field value is one of `undefined`, `null`, a boolean, an
integer or a string. Truthiness follows ECMAScript: `""`, `0`, `false`,
`null` and `undefined` are falsy.

## Model

| member | source | states |
|---|---|---|
| Server.HasEndpoint | Documents/pwd-task-list/server/index.js:33 | The duplicate test holds exactly when the endpoint is among the registry's endpoints |
| Server.Remove | Documents/pwd-task-list/server/index.js:52 | The filtered registry keeps exactly the entries whose endpoint differs, with their multiplicities, in their original order, and holds no entry with the removed endpoint |
| Server.Subscribe | Documents/pwd-task-list/server/index.js:26-41 | A falsy endpoint answers 400 with the "invalid subscription" error and leaves the registry alone. A truthy one answers 201 `{}`: it appends the subscription when its endpoint is new and leaves the registry unchanged otherwise. No push is attempted |
| Server.Unsubscribe | Documents/pwd-task-list/server/index.js:44-60 | A falsy endpoint answers 400 with the "endpoint required" error, registry unchanged. Otherwise it answers 200 `{}`, exactly the entries with that endpoint are gone, the others stay with their multiplicities, and the result is a subsequence of the old registry |
| Server.Outcome | Documents/pwd-task-list/server/index.js:82-89 | A result carries its subscription's endpoint; it is a success exactly when the delivery resolved, and an error carries the rejection message |
| Server.OutcomesInOrder | Documents/pwd-task-list/server/index.js:80-90 | One outcome per registered subscription, in registry order, each computed from that subscription's own delivery |
| Server.SendNotification | Documents/pwd-task-list/server/index.js:63-96 | A falsy title or body answers 400 with the "title and body required" error and attempts nothing. Otherwise it sends to every subscription in registry order with payload {title, body, icon "/icons/icon-192.png"}, and answers 200 with one result per subscription, the k-th being the outcome of the k-th delivery to settle. The registry never changes |
| Server.SubscribePreservesUniqueness | Documents/pwd-task-list/server/index.js:33-35 | The duplicate check keeps registry endpoints pairwise distinct |
| Server.UnsubscribePreservesUniqueness | Documents/pwd-task-list/server/index.js:52 | Removing entries keeps registry endpoints pairwise distinct |
| Seqs.SubsequenceKeepsDistinctKeys | Documents/pwd-task-list/server/index.js:52 | Any subsequence of a list whose keys are pairwise distinct has pairwise distinct keys; used for registry endpoints and for cache names |
| Server.SubscribeIdempotent | Documents/pwd-task-list/server/index.js:33-40 | Repeating a subscribe gives the same response and the same registry |
| Server.SubscribeLeavesExactlyOne | Documents/pwd-task-list/server/index.js:33-35 | After a valid subscribe, a registry with distinct endpoints holds exactly one entry for that endpoint |
| Server.UnsubscribeAbsent | Documents/pwd-task-list/server/index.js:51-59 | Unsubscribing an endpoint that is not stored still answers 200 and changes nothing |
| Server.UnsubscribeIdempotent | Documents/pwd-task-list/server/index.js:44-60 | A second unsubscribe of the same endpoint gives the same reply and registry as the first |
| Server.SubscribeThenUnsubscribe | Documents/pwd-task-list/server/index.js:26-60 | Subscribing a new endpoint and then unsubscribing it restores the registry |
| Server.SendResultsArePermutation | Documents/pwd-task-list/server/index.js:79-95 | The results, whatever the settlement order, are a rearrangement of the per-subscription outcomes, and their endpoints are a rearrangement of the registry's endpoints |
| Server.SendOneResultPerSubscription | Documents/pwd-task-list/server/index.js:79-95 | With distinct endpoints, each registered subscription has exactly one result, and that result is its own delivery's outcome |
| Server.PermutationDistinct | Documents/pwd-task-list/server/index.js:80-92 | Two different settlement slots belong to two different sends |
| Server.InvalidSendIgnoresTransport | Documents/pwd-task-list/server/index.js:66-69 | A rejected send gives the same 400 reply whatever the transport would do |
| Server.ScenarioSubscribeTwiceThenSend | Documents/pwd-task-list/server/index.js:26-96 | Subscribing A twice stores one entry. After subscribing B, a send whose deliveries settle B first reports two results, for B and then for A |
| Js.Truthy | Documents/pwd-task-list/server/index.js:28 | A field value is truthy exactly when it is none of `undefined`, `null`, `false`, `0` and `""`; the tests at server/index.js:28, :46 and :66 use it |
| Text.Trim | Documents/pwd-task-list/client/app.js:74 | The trimmed text is the slice between the white-space framing of the input; it is empty exactly when the input is all white space, and otherwise starts and ends with a character that is not white space |
| Text.TrimUnique | Documents/pwd-task-list/client/app.js:74 | Trimming any white-space framing of a text that has non-white-space ends gives back that text |
| Text.TrimIdempotent | Documents/pwd-task-list/client/app.js:74 | Trimming twice equals trimming once |
| Text.StartsWithMeansPrefix | Documents/pwd-task-list/client/sw.js:48-50 | `startsWith` holds exactly when the string is the prefix followed by some rest |
| Text.Decimal | Documents/pwd-task-list/client/app.js:282 | The rendered count is a non-empty digit string with no leading zero |
| Text.DecimalRoundTrip | Documents/pwd-task-list/client/app.js:282 | Reading the rendered digits back gives the count |
| TaskList.AddTask | Documents/pwd-task-list/client/app.js:73-88 | Blank input changes nothing and posts nothing. Other input appends one uncompleted task holding the trimmed text, keeps the earlier tasks, and clears the input box; it posts the "new task" notification naming the trimmed text exactly when subscribed |
| TaskList.AddTaskAddsActive | Documents/pwd-task-list/client/app.js:76 | Adding raises the number of open tasks by one, and a blank input leaves it unchanged |
| TaskList.ToggleTask | Documents/pwd-task-list/client/app.js:107-108 | Only the addressed task changes: its text stays the same and its completed flag flips |
| TaskList.ToggleTwice | Documents/pwd-task-list/client/app.js:107-108 | Toggling the same task twice restores the list |
| TaskList.ToggleActiveCount | Documents/pwd-task-list/client/app.js:107-108 | A toggle moves exactly one task into or out of the open tasks |
| TaskList.SpliceStart | Documents/pwd-task-list/client/app.js:115 | The splice position: a negative index counts from the end, and the result is clamped to the list bounds |
| TaskList.DeleteTask | Documents/pwd-task-list/client/app.js:114-115 | Deleting removes the task at the splice position and keeps the rest in order; a position at the end removes nothing |
| TaskList.DeleteRemovesOne | Documents/pwd-task-list/client/app.js:114-115 | Deleting a valid index removes exactly one copy of that task; the tasks before it keep their places and the tasks after it shift down by one |
| TaskList.DeletePastEnd | Documents/pwd-task-list/client/app.js:115 | An index past the end deletes nothing |
| TaskList.AddThenDelete | Documents/pwd-task-list/client/app.js:73-115 | Deleting the task just added restores the list |
| TaskList.FilterTest | Documents/pwd-task-list/client/app.js:46-50 | The "active" test keeps exactly the open tasks, the "completed" test exactly the completed ones, and any other filter value keeps every task |
| TaskList.Visible | Documents/pwd-task-list/client/app.js:46-50 | The view keeps list order. "active" shows exactly the open tasks with their multiplicities, "completed" exactly the completed ones, and any other filter value shows all tasks |
| TaskList.ActivePlusCompleted | Documents/pwd-task-list/client/app.js:46-50 | The active and completed views together have as many rows as the list; the active view's size is the open-task count |
| TaskList.Rows | Documents/pwd-task-list/client/app.js:52-66 | One row per visible task, in view order |
| TaskList.RowIndexInRange | Documents/pwd-task-list/client/app.js:52-66 | A row's handler index is its view position, and always a valid list position |
| TaskList.RowIndexUnderAll | Documents/pwd-task-list/client/app.js:52-66 | Under the "all" view a row's index addresses the very task it shows, so its checkbox toggles that task |
| TaskList.RowIndexUnderActiveView | Documents/pwd-task-list/client/app.js:52-66 | In the "active" view of [completed "a", open "b"], the only row shows "b", but its checkbox toggles "a" |
| TaskList.Reminder | Documents/pwd-task-list/client/app.js:275-283 | A reminder is produced exactly when some task is open. It is titled "Напоминание", and its body names the number of open tasks as a decimal digit string with no leading zero |
| KeyDecoding.PaddingLength | Documents/pwd-task-list/client/app.js:299 | At most three `=` are added, and they make the length a multiple of four |
| KeyDecoding.Pad | Documents/pwd-task-list/client/app.js:299-300 | The padded string starts with the input and continues with `=` only, and its length is the smallest multiple of four not below the input's length |
| KeyDecoding.ReplaceAll | Documents/pwd-task-list/client/app.js:301-302 | A global single-character replacement changes every occurrence of that character and nothing else |
| KeyDecoding.ToStandardAlphabet | Documents/pwd-task-list/client/app.js:300-302 | The two replacements in sequence keep the length and map `-` to `+` and `_` to `/` character by character; the second does not disturb the first |
| KeyDecoding.StandardBase64 | Documents/pwd-task-list/client/app.js:299-302 | The string given to `atob` is the input with each character translated to the standard alphabet, followed by exactly the padding `=` characters |
| KeyDecoding.TranslationChangesOnlyUrlCharacters | Documents/pwd-task-list/client/app.js:299-302 | The string given to `atob` differs from the input only where the input has `-` or `_`, and then continues with padding |
| KeyDecoding.StandardBase64Shape | Documents/pwd-task-list/client/app.js:299-302 | A base64url input becomes standard-alphabet characters followed by at most three `=`, with a length that is a multiple of four; three `=` are added exactly when the input length leaves remainder 1 modulo 4 |
| KeyDecoding.StandardBase64RoundTrip | Documents/pwd-task-list/client/app.js:299-302 | Dropping the padding and mapping back to the URL-safe alphabet recovers the input |
| KeyDecoding.VapidKeyPadding | Documents/pwd-task-list/client/app.js:2 | The client's 87-character key gets exactly one `=` |
| KeyDecoding.ToUint8 | Documents/pwd-task-list/client/app.js:308 | The stored element is a byte congruent to the character code modulo 256, and equal to it for codes below 256 |
| KeyDecoding.ToBytes | Documents/pwd-task-list/client/app.js:305-309 | One element per decoded character; a character code below 256 is stored unchanged |
| KeyDecoding.UrlBase64ToUint8Array | Documents/pwd-task-list/client/app.js:298-311 | Decoding fails exactly when `atob` rejects the translated string. Otherwise element i is the code of decoded character i modulo 256 |
| ServiceWorker.IsApiPath | Documents/pwd-task-list/client/sw.js:48-50 | A path is an API path exactly when it starts with one of "/subscribe", "/unsubscribe" and "/send-notification" |
| ServiceWorker.Classify | Documents/pwd-task-list/client/sw.js:48-78 | A path passes through exactly when it starts with one of the three API prefixes. Otherwise it is cache-first exactly when it is one of the seven app-shell paths, and network-first in every other case |
| ServiceWorker.ApiPrefixPassesThrough | Documents/pwd-task-list/client/sw.js:48-51 | Any path extending an API prefix, e.g. "/subscribeX", passes through |
| ServiceWorker.StaticAssetsAreCacheFirst | Documents/pwd-task-list/client/sw.js:5-13 | No app-shell path is shadowed by the API test: every one is served cache-first |
| ServiceWorker.Lookup | Documents/pwd-task-list/client/sw.js:70-71 | A found response is stored under that URL in a cache of that name; an absent name finds nothing |
| ServiceWorker.LookupFirstNamed | Documents/pwd-task-list/client/sw.js:70-71 | The first cache with that name answers: a lookup finds its entry for the URL when it has one, and nothing otherwise |
| ServiceWorker.LookupUniqueNamed | Documents/pwd-task-list/client/sw.js:70-71 | With unique cache names, the cache with that name answers every lookup the same way |
| ServiceWorker.Match | Documents/pwd-task-list/client/sw.js:57 | A non-GET request matches nothing. A hit is the response stored under the URL in the first cache, in creation order, that holds the URL. A GET miss means no cache holds the URL |
| ServiceWorker.Open | Documents/pwd-task-list/client/sw.js:70 | Opening a name keeps the cache names when it is already there and appends it otherwise; every lookup finds what it did before |
| ServiceWorker.Put | Documents/pwd-task-list/client/sw.js:70-71 | The named cache is opened, and so created when missing, for any request, including one whose put then rejects: the names stay the same, or the one new name is appended |
| ServiceWorker.Store | Documents/pwd-task-list/client/sw.js:70-71 | Opening a cache either finds one by name or appends one new, empty cache with that name at the end |
| ServiceWorker.StoreLookup | Documents/pwd-task-list/client/sw.js:70-71 | After the write, the written URL in the named cache finds the new response, and every other name and URL finds what it did before |
| ServiceWorker.PutLookup | Documents/pwd-task-list/client/sw.js:70-71 | A put writes exactly one entry, and only for a GET; a rejected non-GET put leaves every lookup as it was |
| ServiceWorker.OpenPreservesUniqueNames | Documents/pwd-task-list/client/sw.js:70 | Opening by name never creates a second cache with an existing name |
| ServiceWorker.StorePreservesUniqueNames | Documents/pwd-task-list/client/sw.js:70-71 | Opening by name and writing one entry never creates a second cache with an existing name |
| ServiceWorker.HandleFetch | Documents/pwd-task-list/client/sw.js:44-79 | The handler leaves exactly the API requests to the browser. The caches change only on the network-first path, when the fetch succeeds with status 200 |
| ServiceWorker.CacheFirstPolicy | Documents/pwd-task-list/client/sw.js:55-60 | App-shell requests are served from the cache when it has them and from the network otherwise; a failed fetch gives a network error, and nothing is written |
| ServiceWorker.NetworkFirstWrites | Documents/pwd-task-list/client/sw.js:65-74 | A successful fetch is always returned to the page, whatever its status. Any other status leaves the caches alone. Status 200 opens "dynamic-content-v1", creating it when missing even for a non-GET request, and for a GET writes the response under the request URL there; no other cache entry changes |
| ServiceWorker.NonGetOpensDynamicCache | Documents/pwd-task-list/client/sw.js:68-71 | A POST that succeeds with status 200 still creates "dynamic-content-v1", empty, after the existing caches, although its put rejects |
| ServiceWorker.NetworkFirstFallsBack | Documents/pwd-task-list/client/sw.js:75-77 | A failed fetch is answered from the caches, or with a network error when they hold nothing; nothing is written |
| ServiceWorker.HandleFetchPreservesUniqueNames | Documents/pwd-task-list/client/sw.js:44-79 | Fetch handling keeps cache names unique |
| ServiceWorker.IsCurrent | Documents/pwd-task-list/client/sw.js:33 | A cache is kept exactly when its name is "smart-todo-v1" or "dynamic-content-v1" |
| ServiceWorker.Activate | Documents/pwd-task-list/client/sw.js:28-41 | Exactly the caches named "smart-todo-v1" or "dynamic-content-v1" survive, each as often as before, in their original order |
| ServiceWorker.ActivateKeepsCurrentContents | Documents/pwd-task-list/client/sw.js:33-35 | After activation, any other name finds nothing, and the two current names find exactly what they held before |
| ServiceWorker.ActivatePreservesUniqueNames | Documents/pwd-task-list/client/sw.js:30-37 | Activation keeps cache names unique |

## Left out

- Express set-up, static file serving, `dotenv`, the VAPID configuration and `listen`: framework plumbing with no logic of its own.
- The `!subscription` half of the check at server/index.js:28: with Express 4 and body-parser 1.x, `express.json()` sets the body to `{}` when none is sent, so only the endpoint test is modelled. The server pins no Express version. Under Express 5 and body-parser 2.x a missing body leaves `req.body` undefined. `/subscribe` then answers 400 through that half, and the destructuring at server/index.js:45 and :64 throws, so Express answers 500; neither path is modelled.
- The 500 branch of `/send-notification`: every per-subscription promise is caught, so `Promise.all` cannot reject.
- `JSON.stringify` of the payload: the payload is kept as its three fields.
- Non-integer numbers, `NaN` and objects or arrays as field values: field values are modelled as primitive values with integer numbers.
- Server.SendNotification: the interleaving of other requests with an ongoing send is not modelled. The registry is read once, as `subscriptions.map` does.
- The base64 decoding inside `atob`: it is the browser's code, and is a parameter of the model.
- The DOM, `localStorage` and the `setInterval`/`clearInterval` timers of app.js: browser I/O. The reminder models one tick.
- `console` logging in server/index.js (lines 29-94), app.js and sw.js: output only, with no effect on the state or the replies.
- The `pushManager` subscribe/unsubscribe calls and the `fetch` posts in app.js: browser and network I/O. A notification is returned as a value instead.
- The first `toggleTask`/`deleteTask` definitions at app.js:90-104: later declarations of the same names replace them, so only the ones at app.js:107-118 take effect.
- TaskList.ToggleTask: requires an index within the list. The source throws a `TypeError` for any other index, and no rendered row can pass one.
- The install handler's `cache.addAll` at sw.js:16-25: a network download at install time. The cache storage is taken as given.
- `self.clients.claim()` at the end of the activate handler (sw.js:39): it takes control of open pages and does not touch the cache storage.
- The `push` and second `push` handlers of sw.js: notification display, which is browser I/O.
- ServiceWorker.Match: URLs are compared as given. The Cache API's URL normalisation, its `Vary` header handling and its `ignoreSearch`-style options are not modelled.
- ServiceWorker.HandleFetch: the cache write of the network-first path is not awaited by the source. It is modelled as if it had completed before the next request.
- Unicode normalisation and case are outside the model; strings are sequences of code points.
