# xray-monitor core, modelled in Dafny

xray-monitor watches an XRay proxy. It reads the proxy's configuration to learn the
statistics API endpoint and the VLESS users. It polls traffic counters and scans the access
log, keeps the results in a table of peers keyed by email, and can post Markdown messages to
a Telegram channel. This project models the parts of that program that compute things:

- **Peer table** (`PeerTable.State`, `GuardedPeerTable.State`): the `State` class in both
  revisions, a map from email to `User`, with the spec functions of `Users` behind it.
- **Statistics and access-log ingest** (`XRay`):
  - `extractEmailFromStatName`
  - the line grammar of `parseStatsOutput` and `parseAccessLog`: each of the three regular
    expressions is a matcher tried at every index, searched leftmost-first, and proved to report
    exactly the leftmost match that the pattern's structure describes
  - the fold of each over the peer table, and the `Client` methods that perform it in place
- **XRay configuration**, in its two revisions:
  - `JsonConfig` walks a `boost::json` tree.
  - `PtreeConfig` walks a `boost::property_tree`.
  - `ConfigCommon` holds the shared parts, including `AppConfig::validate`.

  A thrown exception becomes a failure result that says which check refused the document.
- **Escaping** (`Telegram`, `Utils`):
  - the Markdown escaping of the Telegram bot, the `sendMessage` guard and the request it builds
  - `utils::escapeJsonString`
- **Logging** (`Logging`): level names, the severity gate in `log`, `initialize` and
  `setLevel`.

The clock is a parameter. One pass over a statistics output or an access log uses a single
`now`. File contents, the HTTP response and whether a file can be opened are parameters too.

## Model

| member | source | states |
|---|---|---|
| Users.Upsert | src/State.cpp:5-27 | An existing entry keeps its id and email. It takes the new connected flag and `now`. Its ip changes only if the new ip is non-empty, and each counter only if the new value is positive. A missing email gets a fresh record with id "". No other entry changes. The table stays keyed by email. |
| Users.UpsertIdempotent | src/State.cpp:5-27 | Repeating the same update gives the same table. |
| Users.Lookup | src/State.cpp:33-39 | A known email gives its stored record. An unknown email gives the default `User`. |
| Users.LookupKnown | src/State.cpp:33-39 | On a table keyed by email, the record found has a non-empty email exactly when the email is known. This is the test `parseAccessLog` relies on. |
| Users.ViewsPartition | src/State.cpp:45-63 | The connected and disconnected views are disjoint. Together they give back the whole table. Each holds exactly the entries with its flag value. |
| Users.AllDisconnected | src/State.cpp:65-69 | Same keys. Each record is unchanged except that it is disconnected. |
| Users.AllDisconnectedViews | src/State.cpp:65-69 | After disconnecting everyone, the connected view is empty and the disconnected view is the whole table. |
| PeerTable.State.constructor | src/State.h:21-35 | The table starts empty. |
| PeerTable.State.UpdateUser | src/State.cpp:5-27 | The new table is `Upsert` of the old one. The table stays keyed by email. |
| PeerTable.State.RemoveUser | src/State.cpp:29-31 | The email is erased. Erasing an unknown email changes nothing. |
| PeerTable.State.GetUser | src/State.cpp:33-39 | Returns the stored record. For an unknown email it returns a record that is empty, disconnected and never seen. |
| PeerTable.State.GetUsers | src/State.cpp:41-43 | Returns a copy of the whole table. |
| PeerTable.State.GetConnectedUsers | src/State.cpp:45-53 | The loop returns exactly the connected entries. |
| PeerTable.State.GetDisconnectedUsers | src/State.cpp:55-63 | The loop returns exactly the disconnected entries. |
| PeerTable.State.DisconnectAllUsers | src/State.cpp:65-69 | Every entry is disconnected. Nothing else changes. |
| GuardedPeerTable.State.constructor | State.h:11-25 | The table starts empty. |
| GuardedPeerTable.State.UpdateUser | State.cpp:4-27 | The same upsert as the other revision. |
| GuardedPeerTable.State.RemoveUser | State.cpp:29-32 | The email is erased. |
| GuardedPeerTable.State.GetUser | State.cpp:34-41 | Returns the stored record or the default record. |
| GuardedPeerTable.State.GetUsers | State.cpp:43-46 | Returns a copy of the whole table. |
| GuardedPeerTable.State.GetConnectedUsers | State.cpp:48-57 | Returns exactly the connected entries. |
| GuardedPeerTable.State.GetDisconnectedUsers | State.cpp:59-68 | Returns exactly the disconnected entries. |
| Text.Find | src/XRayClient.cpp:111-114 | `std::string::find`: the least index at or after `from` where the pattern occurs. None if it occurs nowhere there. |
| Text.ContainsIff | src/XRayClient.cpp:95-98 | `find(...) != npos` holds exactly when the pattern occurs somewhere. |
| Text.DecimalRoundTrip | src/TelegramBot.cpp:47 | The decimal text of a number reads back as that number. |
| XRay.ExtractEmailFromStatName | src/XRayClient.cpp:110-118 | A non-empty result sits between two `>>>` markers of the name. A name with no marker gives "". |
| XRay.ExtractEmailSplit | src/XRayClient.cpp:110-118 | A non-empty result `r` is the second `>>>`-delimited segment: the name is `p + ">>>" + r + ">>>" + rest`, and no marker starts inside `p` or inside `r`. |
| XRay.ExtractEmailOfSplit | src/XRayClient.cpp:110-118 | Conversely, every such split yields exactly `r`. |
| XRay.MarkersOfSplit | src/XRayClient.cpp:111-115 | In such a split, "no marker in `p + ">>"`" means no marker starts inside `p`. The same holds for `r`. |
| XRay.NoMarkerWithoutGt | src/XRayClient.cpp:110-118 | A segment with no '>' can never hold a marker. |
| XRay.ExtractEmailExample | src/XRayClient.cpp:110-118 | `user>>>alice>>>` followed by anything, such as `traffic>>>downlink`, gives `alice`. |
| XRay.SearchName | src/XRayClient.cpp:76-86 | The capture of the stat-name pattern is non-empty and holds no quote. |
| XRay.SearchNameSound | src/XRayClient.cpp:76-86 | A captured name comes from a match of `"name":\s*"([^"]+)"`: the literal, blanks, a quote, the capture and a closing quote. No match starts earlier in the line. |
| XRay.SearchNameFinds | src/XRayClient.cpp:76-86 | Conversely, a line holding a match always yields a name, and the leftmost match is the one captured. |
| XRay.SearchValue | src/XRayClient.cpp:77-89 | The capture of the value pattern is non-empty and all digits. |
| XRay.SearchValueSound | src/XRayClient.cpp:77-89 | A captured value comes from a match of `"value":\s*(\d+)`, whose digit run no further digit follows. No match starts earlier. |
| XRay.SearchValueFinds | src/XRayClient.cpp:77-89 | Conversely, a line holding a match always yields a value, and the leftmost match is the one captured. |
| XRay.SearchAccess | src/XRayClient.cpp:40-46 | The ip of an access-line hit is non-empty digits and dots. The email is non-empty and holds no whitespace. |
| XRay.SearchAccessSound | src/XRayClient.cpp:40-44 | A hit comes from a match: "from ", four dot-separated digit runs, ':', a port, " accepted ", a gap without line terminators that holds no earlier ` email: ` followed by a non-blank, then " email: " and the longest non-blank run. No match starts earlier. |
| XRay.SearchAccessFinds | src/XRayClient.cpp:40-44 | Conversely, a line holding such a match always yields a hit, and the leftmost match gives its ip and email. |
| XRay.EmailFromMatches | src/XRayClient.cpp:40 | The lazy `.*? email: ([^\s]+)` stops at the first ` email: ` followed by a non-blank, scanning no line terminator, and captures the longest non-blank run there. |
| XRay.EmailFromFinds | src/XRayClient.cpp:40 | Conversely, the first such place is where the lazy gap stops. |
| XRay.EmailFromNone | src/XRayClient.cpp:40 | With no ` email: ` followed by a non-blank anywhere ahead, the tail captures nothing. |
| XRay.EmailNeedsLeadingSpace | src/XRayClient.cpp:40 | `accepted email: bob`, with one blank between the words, is no match: the pattern needs a blank on each side of `.*?`. |
| XRay.ApplyStat | src/XRayClient.cpp:91-104 | A value line with no pending name changes nothing. Neither does an empty extracted email, or a name with neither "downlink" nor "uplink". Otherwise exactly that email's entry becomes connected and seen at `now`, and "downlink" wins over "uplink". Only a positive value replaces the chosen counter. |
| XRay.NameLineTakesPriority | src/XRayClient.cpp:85-88 | A line matching the name pattern only records the pending name, even if it also matches the value pattern. |
| XRay.ValueLineNeedsName | src/XRayClient.cpp:88-105 | A value line with no preceding name line changes nothing. |
| XRay.ParseStats | src/XRayClient.cpp:73-108 | A pass never removes a user. It stops early exactly when some line is not a name line and its value capture does not fit in a `uint64_t`, the line on which `std::stoull` throws. |
| XRay.ApplyStatEffect | src/XRayClient.cpp:91-104 | One value line never removes a user. Every entry is either untouched, or connected and seen at `now`. |
| XRay.StatsPassEffect | src/XRayClient.cpp:73-108 | A statistics pass never removes a user. It keeps the table keyed by email. Every entry is either untouched, or connected and seen at `now`. |
| XRay.AccessStep | src/XRayClient.cpp:44-52 | One access-log line never adds or removes a user. |
| XRay.AccessStepEffect | src/XRayClient.cpp:44-52 | A hit on a known user sets exactly its ip and `lastSeen`. Its connected flag, id and counters are kept. Lines that miss, or hit an unknown email, change nothing. |
| XRay.ParseAccess | src/XRayClient.cpp:42-54 | The whole log never adds or removes a user. |
| XRay.ParseAccessAppend | src/XRayClient.cpp:42-54 | Processing the log in two pieces is the same as processing it whole. |
| XRay.ParseAccessKeepsIdentity | src/XRayClient.cpp:42-54 | The access log never adds or removes users. It never changes an id, email, connected flag or counter. |
| XRay.ParseAccessUntouched | src/XRayClient.cpp:42-54 | A user that no line hits is left as it was. |
| XRay.LastHitWins | src/XRayClient.cpp:42-54 | The last line that hits a user decides its stored ip. |
| XRay.Client.constructor | src/XRayClient.h:12-18 | The client holds the configured access-log path and the shared peer table. |
| XRay.Client.ParseStatsOutput | src/XRayClient.cpp:73-108 | The loop updates the table in place. Its result equals the statistics fold over the lines. `ok` is false once a value is outside the range of `uint64_t`, which stops the pass. |
| XRay.Client.ParseAccessLog | src/XRayClient.cpp:28-55 | An empty path or an unreadable file leaves the table alone. Otherwise the table becomes the access-log fold over the file's lines. |
| ConfigCommon.FirstIndex | src/Config.cpp:111-116 | The least index at or after `from` that satisfies the predicate. None if no element does. |
| ConfigCommon.FirstIndexIs | src/Config.cpp:111-116 | An index that satisfies the predicate, with none before it from `from`, is the one `FirstIndex` finds. |
| ConfigCommon.CollectUsersOrigin | src/Config.cpp:155-168 | The collected table is keyed by email. Every entry is the record of some accepted client. |
| ConfigCommon.CollectUsersMembership | src/Config.cpp:155-168 | An email is in the table exactly when some client is accepted with that email. |
| ConfigCommon.CollectUsersLastWins | src/Config.cpp:167 | When emails repeat, the last accepted client wins. |
| ConfigCommon.CollectUsersAppend | src/Config.cpp:140-170 | Collecting over two runs of clients is the union, with the later run winning. |
| ConfigCommon.AppConfig.Validate | src/Config.cpp:225-242 | Passes exactly when the config path is non-empty, the interval is positive, token and channel are both set or both empty, and the level name is one that `stringToLevel` accepts. Each error is stated exactly, in the source's order: an empty path; then a non-positive interval; then a token without a channel; then a channel without a token; and only when all of those hold, an unknown level, which carries the level text. |
| ConfigCommon.DefaultsValid | src/Config.h:36-41 | The defaults validate, and "INFO" names the Info level. |
| JsonConfig.GetOptionalString | src/Config.cpp:14-20 | Some exactly when the key is present and holds a string, and then it returns that string. |
| JsonConfig.GetOptionalInt64 | src/Config.cpp:22-29 | Some exactly when the key is present and holds a signed 64-bit integer, and then it returns that integer. |
| JsonConfig.HasStatsService | src/Config.cpp:64-81 | The services check passes exactly when `api` is an object whose `services` is an array holding the string "StatsService" at some position. |
| JsonConfig.StatsServiceListAccepted | src/Config.cpp:58-81 | An object root whose services list holds "StatsService" at any position passes the root and services checks. |
| JsonConfig.ListenOf | src/Config.cpp:117 | The inbound's `listen` string, or "127.0.0.1" when it has none. |
| JsonConfig.PortOf | src/Config.cpp:119-123 | A port exactly when `port` is a signed 64-bit integer from 1 to 65535, and then that value. |
| JsonConfig.InboundSettings | src/Config.cpp:102-132 | On success the port is in 1..65535. "Missing inbounds" exactly when there is no inbounds array. "Missing dokodemo-door" exactly when no element is one. |
| JsonConfig.InboundChoice | src/Config.cpp:108-126 | For the first dokodemo-door inbound, found by index: an "Invalid port" failure when its port is refused, otherwise success with its address and port. The rest of the array is never read. |
| JsonConfig.FirstDokodemoAt | src/Config.cpp:108-126 | The first dokodemo-door inbound sits at an index with no dokodemo-door inbound before it. |
| JsonConfig.InboundRefusals | src/Config.cpp:102-132 | "Invalid port" exactly when a first dokodemo-door inbound exists and its port is refused. Success exactly when its port is accepted, and then the result is its address and port. |
| JsonConfig.ClientsOf | src/Config.cpp:144-154 | Only a vless inbound contributes clients. |
| JsonConfig.ClientEntry | src/Config.cpp:156-168 | A client is accepted exactly when it is an object with a string id and a non-empty string email. The record takes those two and defaults everything else. |
| JsonConfig.Parse | src/Config.cpp:55-100 | Success needs an object root, the services check and the inbounds check. It carries the inbound settings, the collected users and `log.access`. A non-object root and a failed services check are reported as such, in that order. An inbounds failure is reported as itself. |
| JsonConfig.VlessClientsMembership | src/Config.cpp:140-154 | A client is visited exactly when it is in the clients array of some vless inbound. |
| JsonConfig.VlessClientSource | src/Config.cpp:140-154 | A visited client sits in the clients array of some vless inbound. |
| JsonConfig.VlessClientVisited | src/Config.cpp:140-154 | Every client in the clients array of an inbound that contributes clients is visited. |
| JsonConfig.UsersOf | src/Config.cpp:134-171 | No inbounds array gives no users. The result is keyed by email, and every user is disconnected, never seen and without an ip. |
| JsonConfig.AccessLogOf | src/Config.cpp:89-97 | A non-empty path exactly when `log` is an object whose `access` is a non-empty string, and then that string. Otherwise "". |
| JsonConfig.ParsedUsersAreClients | src/Config.cpp:134-171 | Every parsed user is the defaulted record of a visited client. It is disconnected and never seen. |
| JsonConfig.XRayConfig.constructor | src/Config.h:20-24 | Address "127.0.0.1", port 0, no access log, no users. |
| JsonConfig.XRayConfig.Validate | src/Config.cpp:173-177 | Passes exactly when the port is in 1..65535. |
| JsonConfig.XRayConfig.ParseInbounds | src/Config.cpp:102-132 | The loop stores `InboundSettings`. On "Invalid port" the first dokodemo-door inbound's address has already been stored, and the port is unchanged. Other failures change nothing. |
| JsonConfig.XRayConfig.ParseUsers | src/Config.cpp:134-171 | The nested loops add exactly the collected users to the table. |
| JsonConfig.XRayConfig.ParseFromFile | src/Config.cpp:55-100 | Fails exactly as `Parse` does. On success it returns a fresh config whose fields are `Parse`'s result, and that config validates. |
| PtreeConfig.ChildNamed | Config.cpp:26-27 | `find(key)` finds a child exactly when one has that key, and returns the first such child. |
| PtreeConfig.GetChild | Config.cpp:26 | The empty path is the node itself. |
| PtreeConfig.GetOptional | Config.cpp:51 | `get_optional`: a value exactly when the path leads to a node, and then that node's text. |
| PtreeConfig.Get | Config.cpp:76-77 | The default when the path is missing. Otherwise the node's text. |
| PtreeConfig.ParseInt | Config.cpp:54 | A converted text is an optional sign followed by a non-empty digit run, and its value is within `int` range. Plain digits whose value fits convert to that value. The empty text does not convert. |
| PtreeConfig.ParseIntShow | Config.cpp:54 | Every `int` written as a JSON number converts back to itself. |
| PtreeConfig.GetInt | Config.cpp:54 | The default when the node is missing or its text does not convert. Otherwise the converted value. |
| PtreeConfig.KeyedStatsService | Config.cpp:26-27 | The check as written: `api.services` exists and one of its children is keyed "StatsService". |
| PtreeConfig.StatsServiceListRejected | Config.cpp:26-29 | For `"services": ["StatsService"]`, the key lookup as written finds nothing, while the intended list check passes. |
| PtreeConfig.StatsServiceListAccepted | Config.cpp:26-29 | With the intended check, a services list holding "StatsService" at any position gets past the services check. |
| PtreeConfig.StatsServiceKeyedAccepted | Config.cpp:26-29 | The intended check still accepts every document the check as written accepts. It refuses exactly the documents that are neither keyed nor listed. |
| PtreeConfig.InboundSettings | Config.cpp:43-66 | On success the port is a non-zero `int`. "Missing inbounds" exactly when there is no inbounds node. |
| PtreeConfig.InboundRefusals | Config.cpp:49-64 | "Missing dokodemo-door" exactly when no inbound is one. "Invalid port" exactly when the first one's port reads as 0. |
| PtreeConfig.ListenOf | Config.cpp:53 | The inbound's `listen` text, or "127.0.0.1" when it has none. |
| PtreeConfig.PortOf | Config.cpp:54 | The inbound's `port` read as an `int`, 0 when it is missing or does not convert. |
| PtreeConfig.InboundChoice | Config.cpp:49-61 | For the first dokodemo-door inbound, found by index: "Invalid port" when its port reads as 0, otherwise success with its address and port. |
| PtreeConfig.FirstDokodemoAt | Config.cpp:49-61 | The first dokodemo-door inbound sits at an index with none before it. |
| PtreeConfig.InboundSuccess | Config.cpp:43-66 | Success exactly when a first dokodemo-door inbound exists and its port is not 0, and then the result is its address and port. |
| PtreeConfig.ClientsOf | Config.cpp:70-73 | Only a vless inbound contributes clients. |
| PtreeConfig.ClientEntry | Config.cpp:74-85 | A client is accepted exactly when its id and email texts are both non-empty. The record takes them and defaults the rest. |
| PtreeConfig.UsersOf | Config.cpp:68-90 | No inbounds node gives no users. The result is keyed by email, and every user is disconnected, never seen and without an ip. |
| PtreeConfig.Parse | Config.cpp:9-41 | Success needs the services check, in its intended form (see Findings), and the inbounds check. It carries their settings, the collected users and `log.access`. A failed services check is reported first. |
| PtreeConfig.XRayConfig.constructor | Config.cpp:10 | Address "127.0.0.1", port 0, no access log, no users. |
| PtreeConfig.XRayConfig.Validate | Config.cpp:92-96 | Passes exactly when the port is not 0. |
| PtreeConfig.XRayConfig.ParseInbounds | Config.cpp:43-66 | The loop stores `InboundSettings`. On "Invalid port" a port of 0 is stored along with the first dokodemo-door inbound's address. Other failures change nothing. |
| PtreeConfig.XRayConfig.ParseUsers | Config.cpp:68-90 | With no inbounds node it fails, which is what `get_child` throws, and changes nothing. Otherwise it adds exactly the collected users. |
| PtreeConfig.XRayConfig.ParseFromFile | Config.cpp:9-41 | Fails exactly as `Parse` does. On success it returns a fresh config equal to `Parse`'s result, and that config validates. |
| Telegram.Escape | src/TelegramBot.cpp:74-89 | The output is never shorter than the input. A non-empty output never starts with a special character. |
| Telegram.EscapeAppend | src/TelegramBot.cpp:76-87 | Escaping works character by character: it distributes over concatenation. |
| Telegram.EscapeLength | src/TelegramBot.cpp:78-85 | The output grows by exactly one character per special. |
| Telegram.EscapePlain | src/TelegramBot.cpp:84-85 | Text without specials is unchanged. |
| Telegram.EscapedSpecialsArePrefixed | src/TelegramBot.cpp:78-83 | Every special character in the output is preceded by a backslash. |
| Telegram.UnescapeEscape | src/TelegramBot.cpp:74-89 | Dropping the inserted backslashes gives back the original message. |
| Telegram.TelegramBot.constructor | src/TelegramBot.cpp:16-18 | Stores the token and the channel. |
| Telegram.BotEnabledByToken | TelegramBot.h:14 | `isEnabled` on a bot built from an accepted command line holds exactly when a token was given, since `AppConfig::validate` lets a token through only with a channel. |
| Telegram.TelegramBot.EscapeMessage | src/TelegramBot.cpp:74-89 | The loop computes `Escape`. |
| Telegram.TelegramBot.SendMessage | src/TelegramBot.cpp:23-72 | A disabled bot sends nothing and returns false. An enabled one reports the server's answer. Its request goes to `/bot<token>/sendMessage`. The body is `chat_id=<channel>&text=<escaped>&parse_mode=Markdown`, and the Content-Length is the body's length in decimal. |
| Utils.EscapeJson | src/utils.cpp:12-27 | The output is never shorter than the input. |
| Utils.EscapeJsonAppend | src/utils.cpp:14-25 | Escaping distributes over concatenation. |
| Utils.EscapeJsonLength | src/utils.cpp:15-23 | The output grows by exactly one character per escaped character. |
| Utils.EscapeJsonPlain | src/utils.cpp:23 | Text without special characters is unchanged. |
| Utils.EscapeJsonSafe | src/utils.cpp:16-22 | The output has no raw newline, carriage return, tab, backspace or form feed. Every quote is preceded by a backslash. |
| Utils.UnescapeEscapeJson | src/utils.cpp:12-27 | Decoding the escapes gives back the input. |
| Utils.EscapeJsonString | src/utils.cpp:12-27 | The loop computes `EscapeJson`. |
| Logging.SeverityOrder | src/Logger.h:9-14 | DEBUG < INFO < WARNING < ERROR is a strict total order. |
| Logging.StringToLevel | src/Logger.cpp:45-51 | Succeeds exactly on the four level names. Otherwise it fails with "Unknown log level: " and the input. |
| Logging.LevelToString | src/Logger.cpp:57-65 | Every level is named "DEBUG", "INFO", "WARNING" or "ERROR". |
| Logging.LevelRoundTrip | src/Logger.cpp:57-65 | Every level's name reads back as that level. |
| Logging.NameRoundTrip | src/Logger.cpp:45-65 | Every accepted name is the name of the level it reads as. |
| Logging.Logger.constructor | src/Logger.h:36-39 | Level INFO, console on, no log file, and the stream not in its fail state. |
| Logging.Logger.Initialize | src/Logger.cpp:17-31 | An unknown level fails with nothing changed. Otherwise the level is set. An empty path turns the console on. A path that opens turns the console off and records the path. One that does not open fails with "Cannot open log file: " and the path. Opening again while a file is open keeps that file open but puts the stream into its fail state. A fresh open leaves the stream good exactly when it succeeds. |
| Logging.Logger.Log | src/Logger.cpp:33-43 | A message below the threshold goes nowhere. Otherwise it goes to the console exactly when console output is on. It reaches the file exactly when the file is open and the stream is not in its fail state, as `timestamp [LEVEL] message`. |
| Logging.ReopenSilencesLog | src/Logger.cpp:17-43 | After two `initialize` calls that both name a log file, a message reaches neither the console nor the file. |
| Logging.Logger.SetLevel | src/Logger.cpp:53-55 | Sets the threshold. Nothing else changes. |

## Left out

- Running the `xray api statsquery` command (`executeCommand`, `queryStats`) is outside the model. Its output arrives as a list of lines. The handler that catches a failed `std::stoull` appears as `ok = false`.
- The `std::stoull` failure leaves the updates made before the failing line in place. That is what the source does, since it stops mid-pass.
- Opening and reading files (the access log, `parse_json_file`, `read_json`, the log file) is outside the model: each is a parameter or an already-parsed tree.
- The regular expressions are modelled for these three patterns only. `.` stops at CR and LF, `\s` is ASCII whitespace, and the search is leftmost-first. No general `std::regex` engine is modelled.
- The clock supplies one `now` per pass, and `getTimestamp`/`formatTime` supply the timestamp text as a parameter.
- Mutexes and atomics are left out, as are `setRunning`/`getRunning`: the model is single-threaded.
- src/App.cpp, the HTTP and TLS transport of `sendMessage`, command-line parsing, `printHelp`, src/logger.cpp and src/main.cpp are not part of this model.
- The warning `sendMessage` logs when the bot is disabled, and the logging calls inside the other operations, are not modelled.
- JSON objects are maps. Member order and duplicate keys of a `boost::json::object` are not represented.
- `PtreeConfig.ParseInt`: does not model the whitespace the stream conversion accepts around the number. It accepts only an optional sign and decimal digits.
- A ptree with several children under the same key is read through the first one, as `find` and `get_child` do.
- The root revision's Config.h is not part of this model. Its XRayConfig defaults are taken to be those of src/Config.h.
- The "UNKNOWN" branch of `levelToString` is not modelled: it cannot be reached for the four-valued enum.
- Error messages of the configuration checks are modelled as error kinds, not as text. Logging keeps its texts.
- Characters are the bytes of a `std::string`: the model's `char` stands for one byte, so every length, including the Content-Length of `sendMessage` (the byte count `requestBody.length()`), is a byte count. Multi-byte UTF-8 text, such as the Cyrillic messages of src/App.cpp, is modelled as its bytes, and no decoding is modelled.
- `Telegram.TelegramBot.IsEnabled` has no contract of its own: it is the one-line test of TelegramBot.h:14. `SendMessage` and `BotEnabledByToken` state what it decides.
- `PtreeConfig.ListsStatsService` has no contract of its own: it is the intended services check of the Findings table, stated by `StatsServiceListAccepted` and `StatsServiceKeyedAccepted`.
- `uint64_t` counters are a subset type of `int`. No update can overflow them, because `stoull` refuses larger values first.

## Findings

| source | as written | input that shows it | evidently intended | confidence | as-written member | corrected member |
|---|---|---|---|---|---|---|
| Config.cpp:26-29 | `api.services` is searched with `find("StatsService")`, which looks for a child KEYED "StatsService" (`PtreeConfig.KeyedStatsService`) | `"api": {"services": ["StatsService"]}`: `read_json` stores the array element as a child keyed "" holding the text "StatsService", so the check throws | accept a services list holding the string "StatsService", as src/Config.cpp:64-81 does, while still accepting a child keyed "StatsService"; `PtreeConfig.FindsStatsService` is that check, and `PtreeConfig.Parse` and `PtreeConfig.XRayConfig.ParseFromFile` use it | not executed | PtreeConfig.StatsServiceListRejected | PtreeConfig.StatsServiceListAccepted, PtreeConfig.StatsServiceKeyedAccepted |
