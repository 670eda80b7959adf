# A verified model of the web server's parsers, CRUD store, user database and routing

The project models five parts of the server and proves what they do on every input and over every run.

* **Configuration files** (`ConfigTree`, `ConfigPretty`, `ConfigGrammar`, `ConfigLexer`, `ConfigRoundTrip`,
  `ConfigLayout`, `ConfigLanguage`, `ConfigTokens`, `ConfigReprint`). The seven-state lexer reads a stream with one
  character of pushback; a stack machine builds the tree; the printer writes it out again. Proved: on every text the
  lexer follows lexical rules written without states; the stack machine accepts a token string with tree `c` if and
  only if `c` derives it; a text parses to `c` if and only if it is a layout of the tokens `c` derives, possibly
  followed by one token that the end of the file cuts off; printing and parsing a tree gives it back if and only if
  every statement has a word and every word is plain, or quoted without its own quote or a backslash inside; an
  accepted text survives parsing and printing if and only if none of its quoted words has its own quote or a backslash
  inside.
* **HTTP requests** (`HttpParser`, `HttpGrammar`, `HttpLanguage`, `HttpDerivation`, `HttpVerdict`, `HttpVersion`). The
  twenty-state byte machine follows the Request-Line of section 5.1 of RFC 2616, header folding of section 4.2 of RFC
  2616 and the tspecials of section 2.2 of RFC 1945. Proved: it accepts exactly the derivable texts, with the fields
  of the derivation; it answers bad at the first byte that rules out every request; chunking does not matter;
  re-rendering the fields is accepted with the same fields; folding a header value before position k keeps the fields
  if and only if no space stands at k; the version sums fit a signed 32-bit integer if and only if the numeral's value
  is at most 2147483599.
* **CRUD store** (`IdAllocator`, `IdHistory`, `IdPlaces`, `IdReach`, `IdRestart`, `ApiStore`, `ApiTargets`, `ApiRuns`,
  `ApiRestart`). Each entity has a list of ids that POST and DELETE change and the scan before each request fills.
  Proved: a duplicate-free list never leads a later POST to a live id, whatever POSTs and DELETEs come, if and only if
  it is *layered* (for i < j < k, v[i] < v[k] implies v[i] < v[j] < v[k]); the lists reachable from an empty entity
  are exactly those of two shapes, all layered; in every run the answer to every request follows from the history of
  requests and answers, index and files together being one map from entity and id to body; after a restart no POST of
  any run overwrites a file, in whatever order the scan meets them, if and only if every entity has at most two files
  or three with consecutive ids.
* **User database and cookie** (`ProfileDatabase`, `ProfileRuns`, `ProfileLines`, `Session`). A text file with one
  line per user. Proved: after any sign-ups line k is k|email|name|hash with distinct emails; login succeeds exactly
  for a stored email with its hash; a cookie is issued exactly for such a login; a fresh sign-up can log in if and
  only if neither name nor email holds a newline; the session cookie of anyone who signed up reads back, at any later
  time, as the same id, name and email if and only if password and email are not empty and neither name nor email
  holds a quote or a backslash.
* **Routing** (`Session`, `Routing`, `RouteNames`). Longest-prefix lookup, the path list and the first-wins route
  table. Proved: the path list is what the handler names say, statement by statement; every url reaches the factory of
  the first statement that offers its location, or the 404 handler at "/".

`Text` holds decimal numerals and splitting, `Wrappers` an option type. `dafny verify dfyconfig.toml` checks everything.

## How the code is modelled

* Loops and objects keep their form: streams, the request, the parser, the store, the profile manager, the server
  configuration and the route table are classes; each method is proved against a function on values, and the theorems
  are about those functions.
* Streams and files are sequences of characters; the directory tree is a map from entity to a map from id to body.
  The order in which a scan meets files is a parameter of every request, and any order is allowed.
* `hash_pass` is a function parameter; where needed it is required to give 64 characters without '|' and newline.
* A '}' that would pop the root block is a rejection, as `tests/config_parser_test.cc:78-82` expects; the code itself
  leaves an empty stack and is undefined afterwards.
* Where the code and its comments differ, the code is followed: the comment at `src/request_api_handler.cc:70`
  promises the lowest free id, and `IdHistory.LeastFreeId` states exactly when the code delivers it.

## What is false of the code, and the exact condition

| promise that fails | failing input | exact condition |
|---|---|---|
| printing inverts parsing | `ConfigReprint.EscapedQuoteIsLost`: the text `'\'';` | `ConfigReprint.ReprintIsFaithful`, on trees `ConfigRoundTrip.RoundTrip` |
| POST issues the lowest free id | `IdReach.LowestIdCanBeMissed`: three POSTs and DELETE 1 | `IdHistory.LeastFreeId` |
| after a restart a POST never overwrites a file | `IdRestart.RestartCanOverwrite`: files met as 4, 2, 1, 3 | `ApiRestart.RestartSafety` on the files, `ApiRestart.ScannedSafety` on one order |
| LIST of a known entity reads back | `ApiRestart.EmptiedListIsBroken`: POST, DELETE, LIST | `ApiStore.ListReadsBack` |
| whoever signed up can log in | `ProfileRuns.NewlineLocksOut`: a newline in the name | `ProfileRuns.LoginAfterSignup` |
| the cookie carries the user back | `ProfileRuns.EmptyEmailIsLost`: `n\|p\|\|` | `ProfileRuns.CookieRoundTrip` |
| urls at or beneath a configured endpoint avoid the 404 handler | `Routing.RootlessBlock`: a static block without root, url `/` | `Routing.ConfiguredIsServed` |

The branch of handle_delete that removes a file and then refuses (`src/request_api_handler.cc:184-188`, an id missing
from the list) is dead: the scan before the request lists every file, so a refused request touches no file, whatever
the index was (`ApiRuns.ScanListsFiles`, `ApiRuns.RefusalIsIdle`).

## Model

| member | source | states |
|---|---|---|
| ConfigTree.ToString | src/config_parser.cc:23-31 | the loop over statements produces the printed form of the whole tree |
| ConfigTree.StatementToString | src/config_parser.cc:185-209 | one statement prints as indentation, words, block or semicolon, newline |
| ConfigTree.Indentation | src/config_parser.cc:187-189 | two blanks per level of depth |
| ConfigTree.JoinTokens | src/config_parser.cc:190-195 | the words with one blank between neighbours |
| ConfigPretty.PrintIsPretty | src/config_parser.cc:185-209 | the printed form of any tree at any depth is its token string under a flat rule: each line starts with two blanks per open brace, its words are one blank apart, and it ends with a semicolon, a blank and an opening brace, or a closing brace |
| ConfigGrammar.GrammarEquivalence | src/config_parser.cc:347-443 | the stack machine yields tree c on a token string if and only if c is well formed and derives exactly that string under statement := word+ (';' or '{' statement* '}') |
| ConfigGrammar.RejectsUnderivable | src/config_parser.cc:347-443 | rejection if and only if no well-formed tree derives the tokens |
| ConfigGrammar.StepConsumes | src/config_parser.cc:370-418 | the tokens read so far can be recovered from the stack after every step |
| ConfigLexer.ParseToken | src/config_parser.cc:236-345 | one lexer call returns the specified kind and value and leaves the specified unread input, errors and end of file included |
| ConfigLexer.AfterQuote | src/config_parser.cc:280-289 | after a closing quote a stop character is pushed back, anything else or the end is an error |
| ConfigTokens.LexicalRules | src/config_parser.cc:236-345 | on every text one lexer call returns exactly what the stateless rules say: four characters are skipped, a word ends at the first of six (a carriage return is not among them), a comment at the first line end, a quoted word at its own unescaped quote, and any character but the six after that quote is an error |
| ConfigLexer.Parse | src/config_parser.cc:347-443 | the token loop gives the tree, or the rejection, that the text has |
| ConfigRoundTrip.RoundTrip | src/config_parser.cc:185-443 | parse(print(c, depth)) == c if and only if every statement of c has a word and every word is printable, at any depth |
| ConfigRoundTrip.LexAllLexable | src/config_parser.cc:244-336 | every word the lexer returns is plain or enclosed in equal quotes |
| ConfigLayout.LayoutIndependence | src/config_parser.cc:236-364 | texts with the same tokens, separated by any blanks and whole comments and with quoted words spelled with or without escapes, lex to the same tokens and parse to the same tree |
| ConfigLanguage.UnfinishedIsDropped | src/config_parser.cc:339-344 | a plain word, a comment or a quoted word after a backslash cut off by the end of the file is dropped without error |
| ConfigLanguage.AcceptedTexts | src/config_parser.cc:236-443 | a text parses to c if and only if it is a layout of the tokens c derives, followed by nothing or one unfinished token |
| ConfigReprint.ConfigPrintable | src/config_parser.cc:185-209 | a tree is printable if and only if every word token it derives is |
| ConfigReprint.ReprintIsFaithful | src/config_parser.cc:185-443 | an accepted text, parsed, printed at any depth and parsed again, gives the same tree if and only if no quoted word of it contains its own quote or a backslash |
| ConfigReprint.EscapedQuoteIsLost | src/config_parser.cc:258-338 | a text with an escaped quote parses, and its tree never comes back from its printed form |
| HttpParser.RequestParser.Consume | src/request_parser.cc:23-296 | one byte: next state, fields and outcome as specified, and the byte is appended to the copy of the request |
| HttpParser.RequestParser.Reset | src/request_parser.cc:21-21 | back to the start state |
| HttpGrammar.ClassesAgree | src/request_parser.cc:298-336 | for every byte the parser's tests are the token characters, controls, blanks and digits given by code |
| HttpParser.RequestParser.Parse | include/request_parser.h:36-46 | a chunk is consumed up to the first decided outcome; the copy grows by exactly the consumed prefix |
| HttpParser.ChunkIndependence | include/request_parser.h:36-46 | any split into chunks gives the same state, fields, outcome and number of bytes as the whole |
| HttpParser.RequestParser.ParseChunks | include/request_parser.h:36-46 | calling parse chunk by chunk until the outcome is decided ends as one call on the concatenation, and the copy of the request grows by exactly its consumed prefix |
| HttpLanguage.StartVersionIsIrrelevant | src/request_parser.cc:28-136 | what the version fields held before the request does not matter |
| HttpLanguage.AcceptFold | src/request_parser.cc:199-290 | a continuation line appends its text, without its blanks, to the last header |
| HttpLanguage.AcceptHeaderLine | src/request_parser.cc:210-290 | a header line adds one header with its name and value |
| HttpLanguage.AcceptsGrammar | src/request_parser.cc:23-296 | every derivable request is accepted to its last byte with the method, uri, version values and joined header values of its derivation |
| HttpDerivation.AcceptanceIsDerivability | src/request_parser.cc:23-296 | from the start state a text is good and fully consumed if and only if it has a derivation |
| HttpVerdict.Verdict | src/request_parser.cc:23-296 | on every byte string: good after n bytes if and only if these are a whole request, indeterminate if and only if some request starts with all of it and goes on, otherwise bad at the first byte that rules out every request |
| HttpVerdict.RefusedByteIsIdle | src/request_parser.cc:23-296 | the byte that decides the outcome leaves state and fields alone |
| HttpDerivation.FoldingInvariance | src/request_parser.cc:199-290 | a request with folded headers parses to the fields of its unfolded form |
| HttpDerivation.FoldPoint | src/request_parser.cc:221-240 | folding any one header value before position k keeps the fields if and only if k is the end or the value has no space at k |
| HttpDerivation.Normalise | src/request_parser.cc:23-296 | re-rendering the parsed fields is accepted with the same fields |
| HttpVersion.VersionArithmetic | src/request_parser.cc:125-188 | the accumulated number is the decimal value of the digits; all intermediate sums fit int if and only if it is at most 2147483599, and always for nine digits |
| IdAllocator.NextIsFresh | src/request_api_handler.cc:71-105 | on a layered list without duplicates the next id is not in the list |
| IdPlaces.PostedIs | src/request_api_handler.cc:71-105 | on any list the id issued is one more than the end of the run of consecutive values that opens it, and is put right after that run; with at most one entry it is 1, or 2 after a 1, and goes to the front |
| IdAllocator.PostKeepsLayered | src/request_api_handler.cc:71-105 | POST keeps a list duplicate-free and layered |
| IdAllocator.RemoveKeepsLayered | src/request_api_handler.cc:183-189 | DELETE keeps a list duplicate-free and layered |
| IdAllocator.Unsafe | src/request_api_handler.cc:71-105 | from a list that is not layered some run of DELETEs and POSTs ends in a POST of a live id |
| IdAllocator.FreshForever | src/request_api_handler.cc:71-105 | a duplicate-free list is safe in all runs of POSTs and DELETEs if and only if it is layered |
| IdHistory.TwoShapeIsSafe | src/request_api_handler.cc:71-105 | increasing positive ids, or increasing ids from 2 on followed by a single 1, are duplicate-free and layered |
| IdHistory.PostKeepsTwoShape | src/request_api_handler.cc:71-105 | POST keeps the two shapes |
| IdHistory.RemoveKeepsTwoShape | src/request_api_handler.cc:183-189 | DELETE keeps the two shapes |
| IdHistory.LeastFreeId | src/request_api_handler.cc:70-105 | on a list of the two shapes POST issues the least free id if and only if the list has at most one entry, starts with 1, or starts with 2 and ends with 1 |
| IdHistory.LowestFreeIdRuns | src/request_api_handler.cc:70-105 | in every run from an empty entity whose DELETEs name ids from 3 on, every POST receives the least free id |
| IdHistory.PostHistory | src/request_api_handler.cc:71-105 | n POSTs to a fresh entity issue 1, ..., n and leave the list 2, ..., n, 1 |
| IdHistory.DeleteThenPost | src/request_api_handler.cc:183-189 | deleting any of 3, ..., n from that list and posting gives the id back and restores the list |
| IdHistory.ScanAddsAll | src/request_api_handler.cc:11-67 | in any visiting order the scan leaves every old and every visited id exactly once |
| IdPlaces.VisitedIs | src/request_api_handler.cc:41-64 | on any list a new id met by the scan is put right after the run that opens it, or joins a single entry in increasing order; a listed one changes nothing |
| IdPlaces.ScanIsStepwise | src/request_api_handler.cc:11-67 | a scan of any files in any order from any index ends with an index if and only if steps of that kind, each changing one entity's list only, lead to it |
| IdHistory.RescanIsIdle | src/request_api_handler.cc:38-66 | a scan that meets only listed ids changes nothing |
| IdHistory.AscendingScan | src/request_api_handler.cc:41-64 | contiguous ids met in ascending order give the sorted list, which is safe in all runs |
| IdReach.ReachableLists | src/request_api_handler.cc:71-189 | a list is reached from an empty entity by some POSTs and DELETEs if and only if it has one of the two shapes |
| IdReach.LowestIdCanBeMissed | src/request_api_handler.cc:70-105 | three POSTs and DELETE 1 lead to a list whose next id is 4 while 1 is free |
| IdRestart.ScanSafety | src/request_api_handler.cc:11-67 | for one visiting order the scanned list is duplicate-free, and safe in all runs if and only if it is layered |
| IdRestart.RestartCanOverwrite | src/request_api_handler.cc:41-105 | files met in the order 4, 2, 1, 3 give the list 2, 3, 1, 4, whose next id is the live 4 |
| IdRestart.AnyOrderIsSafe | src/request_api_handler.cc:11-105 | for a set of file ids every visiting order is safe in all later runs if and only if there are at most two ids, or three consecutive ones |
| ApiStore.Api.Rescan | src/request_api_handler.cc:11-67 | the scan changes the index as specified and no file |
| ApiStore.ScanByEntity | src/request_api_handler.cc:32-66 | the scan treats each entity on its own, in the order its files are met |
| ApiStore.Api.FirstRun | src/request_api_handler.cc:92-96 | the index loop finds the end of the first run of consecutive ids |
| ApiStore.Api.GetNextId | src/request_api_handler.cc:71-105 | the id issued and the new list of the entity, everything else unchanged |
| ApiStore.Api.DoPost | src/request_api_handler.cc:107-147 | a directory is made if missing, the id allocated and the body stored under it |
| ApiStore.Api.DoDelete | src/request_api_handler.cc:149-208 | file and list entry go together; the refusals, the one after the file is gone included |
| ApiStore.Api.Erase | src/request_api_handler.cc:182-189 | find and erase remove the first occurrence |
| ApiStore.Api.DoGet | src/request_api_handler.cc:210-266 | the stored body of a file that exists and is listed, else a refusal |
| ApiStore.Api.DoList | src/request_api_handler.cc:268-306 | the bracketed list text of the entity, else a refusal |
| ApiStore.Api.DoPut | src/request_api_handler.cc:308-356 | an existing file is overwritten, else a refusal |
| ApiStore.Api.Serve | src/request_api_handler.cc:368-454 | a request after its scan: dispatch on target, method and login |
| ApiTargets.ServedTargets | src/request_api_handler.cc:372-383 | a target is an entity, or a file of one, if and only if it is "/api/" and a name without a slash, or "/api/", an entity, a slash and such a name; outside "/api/" it names nothing |
| ApiTargets.OtherTargetsAreRefused | src/request_api_handler.cc:375-379 | a request outside "/api/" or for "/api/" itself is refused after its scan |
| ApiStore.ListReadsBack | src/request_api_handler.cc:283-292 | the LIST text reads back as exactly its ids if and only if there are any; otherwise it is a lone bracket |
| ApiStore.ListText | src/request_api_handler.cc:283-292 | the LIST text is the numerals in list order, with commas between them, in brackets |
| ApiRuns.StoreRefinement | src/request_api_handler.cc:107-454 | in every run an entity that was consistent at the start has an index naming exactly its files, and files holding exactly the bodies last posted or put and not deleted since, as the requests and answers tell |
| ApiRuns.PostIsFresh | src/request_api_handler.cc:107-147 | in every run a logged-in POST is given an id the history holds no body for |
| ApiRuns.FileAnswersHistory | src/request_api_handler.cc:149-356 | in every run GET answers the last body of the history, PUT its own body and DELETE success exactly when the history holds a body (and, for PUT and DELETE, the user is logged in); everything else is refused |
| ApiRuns.ListAnswersHistory | src/request_api_handler.cc:268-306 | in every run LIST reads back as exactly the live ids, once each; without a live id it is a lone bracket for an entity posted to before and a refusal otherwise |
| ApiRuns.ListInOrder | src/request_api_handler.cc:268-306 | in every run LIST names the ids in the order of the entity's list |
| ApiRuns.UnlistedFile | src/request_api_handler.cc:149-356 | what GET, DELETE and PUT would do with a file its entity's list lacks |
| ApiRuns.UnindexedEntity | src/request_api_handler.cc:149-306 | GET, DELETE and LIST refuse an entity without a list and change nothing |
| ApiRuns.KnownIsListed | src/request_api_handler.cc:107-147 | an entity has a directory and a list if and only if it had both at the start or was posted to |
| ApiRuns.AnswerFromHistory | src/request_api_handler.cc:368-454 | in every run the history decides the answer to the next request, of any verb and target, up to which free id a POST is given and the order of LIST |
| ApiRuns.ScanListsFiles | src/request_api_handler.cc:11-67 | after the scan every file is listed, whatever the index was |
| ApiRuns.RefusalIsIdle | src/request_api_handler.cc:149-366 | on any store a refused request leaves the files alone and the index as its scan left it |
| ApiRuns.RunRefusalIsIdle | src/request_api_handler.cc:358-366 | the same in every run from any store; from a consistent store nothing changes at all |
| ApiRuns.RunsFromEmpty | src/request_api_handler.cc:8-105 | from an empty store every run keeps the two shapes, freedom from duplicates and agreement with the files |
| ApiRestart.StoreSafety | src/request_api_handler.cc:71-147 | where index and files agree, no POST of any run of requests overwrites a file if and only if every list is layered |
| ApiRestart.EmptiedListIsBroken | src/request_api_handler.cc:283-292 | from an empty store the run POST e, DELETE e/1, LIST e answers a lone bracket |
| ApiRestart.ScannedSafety | src/request_api_handler.cc:8-147 | after a scan of the files in a given order no POST of any run overwrites a file if and only if the lists scanned are layered |
| ApiRestart.FirstScanDecides | src/request_api_handler.cc:8-68 | a run after a restart answers and ends as the run from the store that its first scan leaves |
| ApiRestart.RestartSafety | src/request_api_handler.cc:8-147 | after a restart on given files no POST of any run overwrites a file, whatever the visiting orders, if and only if every entity has at most two files or three with consecutive ids |
| Text.SplitBars | src/profile_manager.cc:19-33 | the splitter collects the fields between bars, less one trailing empty field |
| Text.FieldsIs | src/profile_manager.cc:19-33 | the fields collected are the only ones without a bar that, joined by bars, give the text, less one bar at its end; an empty text has none |
| ProfileDatabase.ProfileManager.ReadEmail | src/profile_manager.cc:107-110 | the text between the first and the second bar of a line, to the line's end when there is only one, nothing without a bar |
| ProfileDatabase.ProfileManager.EmailExists | src/profile_manager.cc:98-116 | true if and only if some line's second field is the email, on any file |
| ProfileDatabase.ProfileManager.ScanUsers | src/profile_manager.cc:136-157 | the same condition as the email check, else the number of lines that are users |
| ProfileDatabase.ProfileManager.Signup | src/profile_manager.cc:122-197 | refuses exactly when the email check holds, else appends the numbered line |
| ProfileDatabase.ProfileManager.SignupString | src/profile_manager.cc:17-42 | three fields name, password, email are signed up, anything else is refused without change |
| ProfileDatabase.ProfileManager.ReadRow | src/profile_manager.cc:56-71 | the fields login reads from a line; without a third bar the hash is taken from the line's start |
| ProfileDatabase.ProfileManager.Login | src/profile_manager.cc:44-93 | the first line with the email decides; success, refusal and exception as specified, on any file |
| ProfileDatabase.ProfileManager.UpdateCookie | src/profile_manager.cc:220-261 | the quoted id, name and email after a successful login, else an empty cookie |
| ProfileLines.LinesAre | src/profile_manager.cc:54-54 | the lines read from any file are the only ones without a newline that make it up, the last one with or without its newline |
| ProfileLines.EmailFieldIs | src/profile_manager.cc:107-110 | the email the scans read is the second field of a line with two or more |
| ProfileLines.CountUsersIs | src/profile_manager.cc:136-157 | on any file sign-up counts the lines with a bar |
| ProfileLines.LoginRowIs | src/profile_manager.cc:56-71 | login reads the first three fields, and as hash the first 64 characters after the third bar, or of the line itself without one |
| ProfileLines.FirstRowDecides | src/profile_manager.cc:54-87 | on any file the first line with three fields, the second of them the email, decides: its data for the right hash, an exception when its id is no number, else a refusal with an empty profile |
| ProfileLines.NoRowRefuses | src/profile_manager.cc:88-89 | on any file without such a line login refuses and says that the email is not present |
| ProfileLines.StoiIs | src/profile_manager.cc:73-73 | white space, at most one sign, then digits give their signed value; without a digit the call throws |
| ProfileRuns.SignupOnAccounts | src/profile_manager.cc:122-197 | on the file of consistent accounts sign-up refuses exactly a stored email, else the file is that of one more account |
| ProfileRuns.DatabaseInvariant | src/profile_manager.cc:17-197 | after any sign-up requests with newline-free names and emails the file is that of the accepted accounts, line k being k, email, name, hash, with distinct emails |
| ProfileRuns.LoginStored | src/profile_manager.cc:44-93 | a stored email logs in exactly with its hash, returning its line's data |
| ProfileRuns.LoginUnknown | src/profile_manager.cc:44-93 | any other email is refused, with a profile that is not logged in and names the reason, a missing file included |
| ProfileRuns.LoginAfterSignup | src/profile_manager.cc:44-197 | a user just signed up can log in if and only if neither email nor name contains a newline |
| ProfileRuns.NewlineLocksOut | src/profile_manager.cc:17-197 | a request with a newline in the name is signed up and the user cannot log in |
| ProfileRuns.CookieRoundTrip | src/profile_manager.cc:220-261 | with the right password a cookie is issued if and only if the password is not empty, and it reads back as id, name and email if and only if, moreover, the email is not empty and neither name nor email holds a quote or a backslash |
| ProfileRuns.CookieIssued | src/profile_manager.cc:220-261 | for every request text: the cookie is not empty if and only if the text has three fields, the first is crazyCode, and some account has the second as email and the hash of the third as hash; then it is the quoted id, name and email of that account |
| ProfileRuns.SignedUpUserKeepsCookie | src/profile_manager.cc:17-261 | whoever signed up at any point of a run gets at any later point a cookie that reads back as the same id, name and email under exactly those conditions |
| ProfileRuns.EmptyEmailIsLost | src/profile_manager.cc:17-261 | a request of the form name, password, empty field, trailing bar signs up an empty email, and the cookie then issued does not carry the user back |
| Session.UpdateUser | src/session.cc:124-160 | the first crazyCode parameter with three fields replaces the profile; otherwise it is left alone |
| Session.Match | src/session.cc:75-89 | terminates with the longest key among the url and its prefixes before a slash, or "/" |
| Session.LongestMatchIsUnique | src/session.cc:75-89 | that condition determines the result |
| Session.ServesBeneath | src/session.cc:75-89 | a key serves its own url and everything beneath it unless a longer key does |
| Routing.NginxConfig.GetPaths | src/config_parser.cc:70-183 | appends the paths of all location statements in order |
| Routing.NginxConfig.StatementPaths | src/config_parser.cc:72-173 | the paths of one statement, by handler name |
| RouteNames.StatementByName | src/config_parser.cc:72-173 | a statement contributes exactly what its handler's name says: echo, health and sleep one path of that kind with the trimmed endpoint; static and API one, filled in by the last root; authentication one, its keys those of the two-word statements and root; the console one per two-word statement, untrimmed; other names none |
| RouteNames.PathsByName | src/config_parser.cc:70-183 | the path list of any configuration is these contributions, in the order of the statements |
| Routing.RootPathIs | src/config_parser.cc:75-114 | the last root statement of a static or API block decides root and endpoint; without one the path is the default |
| Routing.AuthPathIs | src/config_parser.cc:137-157 | each key has the value of its last two-word statement, and the root is the value of the key root |
| Routing.TrimmedEndpoint | src/config_parser.cc:81-84 | exactly the trailing slashes are cut off, and an endpoint of slashes only stays whole |
| Routing.NginxConfig.GetRoot | src/config_parser.cc:53-59 | the root of the first path with that endpoint, or nothing |
| Routing.Server.AddRoutes | src/server.cc:25-50 | existing routes stay; every configured endpoint and "/" is a route, a new one with the kind of its first path, "/" falling back to the 404 handler |
| Routing.Server.InitServer | src/server.cc:23-52 | the paths are appended, the routes extended, and a fresh table agrees with the path list |
| Routing.Server.Dispatch | src/session.cc:61-63 | for every url the location is a route, and its factory kind and its root come from the first path with that endpoint |
| RouteNames.DispatchByName | src/session.cc:61-63 | for every url the factory has the kind that the handler name of the first statement offering the location says, or the location is "/" and no statement offers it |
| Routing.ConfiguredIsServed | src/session.cc:61-89 | everything at or beneath a configured endpoint avoids the 404 handler if and only if the endpoint is not empty or "/" has a path |
| Routing.RootlessBlock | src/config_parser.cc:70-89 | a lone static block without a root gives the default path, and "/" then reaches the 404 handler |

## Left out

- ConfigLexer.Parse: the tree under construction is held as values on the stack and a block is attached to its statement when it closes, so the sharing of blocks through pointers and the partial tree left behind by a rejected file are not captured.
- HttpParser.RequestParser.Consume: version numbers are unbounded; the code overflows, which is undefined, beyond the bound that VersionArithmetic states.
- ApiStore.Api.GetNextId: ids are unbounded; overflow of int at 2147483647 is not modelled.
- ApiStore.Api.Serve: entities contain no '/', files have canonical numerals as names; path normalisation, nested entities, other file names and failing file operations are not modelled, and the response is its status, body or id without the surrounding HTML.
- ProfileLines.StoiIs: the exception of std::stoi for a number outside int is not modelled.
- ProfileDatabase.ProfileManager.Login: std::stoi is unbounded; its exception for a number outside int is not modelled.
- ProfileDatabase.ProfileManager.Signup: the user counter is unbounded.
- Session.UpdateUser: the cookie header is already split into parameters, std::stoi is unbounded; the unquoting of a value is modelled as for an RFC 2616 quoted-string.
- Routing.NginxConfig.GetPaths: location statements that the code would read out of bounds or through a null block are excluded by the precondition.
- get_listen_port, get_auth_path_map, the listen token count inside Parse and all logging: single-branch code, or without effect on the results.
- Sockets, threads, timers and the asynchronous session plumbing: requests are handled one at a time.
- SHA-256: an arbitrary function stands for it.
- Echo, health, sleep, 404, error, static and console handlers, replies, MIME types, pages and mail: nothing hard to prove.
