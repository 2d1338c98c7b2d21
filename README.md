# FortressGuard web front-end — a verified model of its logic

FortressGuard's web front-end is a Next.js site for a password and encryption
service. Most of it is animation. The logic that decides anything sits in seven
places, and this project models each one in Dafny and proves what it promises.

- **`config.ts`**: the API configuration and `buildApiUrl`.
- **`apiService.ts`**, the request layer:
  - the query string `fetchApi` builds;
  - the percent-encoding it uses, which is ECMAScript's `encodeURIComponent` (section 18.2.6.5 of ECMA-262, 6th edition), producing the percent-triplets of section 2.1 of RFC 3986 over UTF-8 (RFC 3629);
  - how each failure becomes an `ApiError`;
  - the five facade operations.
- **`useApiService.ts`**: the hook's five request lanes, each `{data, isLoading, error}`.
- **`PasswordStrengthMeter.tsx`**: the local score and level, the mapping of the server's strength strings, the bar percentages and the checklist.
- **`TerminalAnimation.tsx`**: the typewriter tick.
- **`Icon.tsx`**: weight suffixes, candidate names, the first-match lookup in the merged icon registry, and the `availableIcons` listing.
- **`IconPicker.tsx`**: the search and library filter, the cap of 100 icons shown, the sorted library buttons, and the open/close/select transitions.

Anything outside the program becomes an input:

- **Network.** Whatever `fetch` produces is a value of type `ApiService.Transport`. It is either a response (status, status text, and a body that parsed or did not) or a thrown value.
- **Environment.** `process.env` values are `Option<string>` parameters.
- **Icon libraries.** Each react-icons library is its list of exports in key order (`Icons.Entries`).
- **Timers.** Each timer callback is one atomic step.

Files:

- `wrappers.dfy`: `Option`, `Result`, and JavaScript's `||` on a string that may be missing.
- `decimal.dfy`: the decimal rendering JavaScript uses for integers, with its parser.
- `uri_component.dfy`: `encodeURIComponent` and its inverse.
- `api_config.dfy`, `api_service.dfy`, `api_hook.dfy`: the three API files.
- `password_strength.dfy`, `terminal_typing.dfy`, `icons.dfy`, `icon_picker.dfy`: the components.

The state that the source changes in place is modelled by classes:

- `ApiHook.Hook` holds five `ApiHook.Lane` objects.
- `TerminalTyping.Terminal` holds the typewriter state.
- `IconPicker.Picker` holds the picker state.

Where the source accumulates in a loop or reassigns a local, the model uses a method whose contract ties the result to a specification function: `PasswordStrength.Evaluate`, `ApiService.HandleApiError` and `ApiService.FetchApi`.

## Model

| member | source | states |
|---|---|---|
| Wrappers.OrElse | src/lib/api/config.ts:6-7 | `a \|\| b` on a string that may be missing: `a` when it is present and non-empty, the fallback otherwise (JavaScript's `\|\|` treats `""` as missing); the same rule picks the error message at apiService.ts:119 and useApiService.ts:71 |
| ApiConfig.ResolveConfig | src/lib/api/config.ts:5-16 | neither field is ever empty; base URL falls back to `http://localhost:3000`, version to `v1`, both under the `\|\|` rule; timeout is 30000 ms |
| ApiConfig.BuildApiUrl | src/lib/api/config.ts:21-23 | the URL is the base URL, then `/api/`, then the version, then the endpoint verbatim, with no normalisation; total |
| ApiConfig.BuildApiUrlRoundTrip | src/lib/api/config.ts:21-23 | stripping the fixed prefix recovers the endpoint, and a URL with that prefix is the URL of what follows it (both directions) |
| ApiConfig.BuildApiUrlInjective | src/lib/api/config.ts:21-23 | different endpoints give different URLs under one configuration |
| ApiConfig.EndpointPathShape | src/lib/api/config.ts:8-14 | every endpoint path starts with `/` and holds no other `/`, so exactly one slash separates version and endpoint |
| ApiConfig.EndpointPathsDistinct | src/lib/api/config.ts:8-14 | the five endpoint paths are pairwise distinct |
| ApiConfig.EndpointUrlsDistinct | src/lib/api/config.ts:8-23 | the five endpoints' URLs are pairwise distinct |
| ApiConfig.DefaultStatisticsUrl | src/lib/api/config.ts:6-22 | with the base URL unset and the version set to `""` the statistics URL is `http://localhost:3000/api/v1/statistics` |
| Decimal.NatToDecimal | src/lib/api/apiService.ts:119 | the decimal text of a number is non-empty, all digits, and has no leading zero except for 0 itself |
| Decimal.DecimalRoundTrip | src/lib/api/apiService.ts:147 | reading the decimal text back gives the number |
| Decimal.IntToString | src/lib/api/apiService.ts:119 | negative numbers get one leading `-` before the digits of the magnitude, others none |
| Decimal.IntToStringRoundTrip | src/lib/api/apiService.ts:147 | parsing the text of any integer gives that integer back |
| UriComponent.Utf8 | src/lib/api/apiService.ts:147 | a character's UTF-8 encoding is 1 to 4 bytes, each below 256, and a single byte exactly for ASCII |
| UriComponent.EncodeChar | src/lib/api/apiService.ts:147 | an unreserved character (letters, digits, ``-_.!~*'()``) stays as itself; every other character becomes upper-case percent-triplets |
| UriComponent.Encode | src/lib/api/apiService.ts:147 | every output character is an unreserved character, a `%` or an upper-case hexadecimal digit; that the `%`s open well-formed triplets of the UTF-8 bytes is what `DecodeEncode` pins |
| UriComponent.TripletsRoundTrip | src/lib/api/apiService.ts:147 | reading back a run of triplets gives its bytes |
| UriComponent.Utf8RoundTrip | src/lib/api/apiService.ts:147 | UTF-8 decoding of a character's encoding gives that character, with the shortest form and scalar-value checks passing |
| UriComponent.DecodeEncodeChar | src/lib/api/apiService.ts:147 | decoding one encoded character, followed by any text, yields that character first |
| UriComponent.DecodeEncode | src/lib/api/apiService.ts:147 | `decodeURIComponent(encodeURIComponent(s)) == s` for every string |
| UriComponent.EncodeKeepsUnescaped | src/lib/api/apiService.ts:147 | a string of unreserved characters encodes to itself |
| UriComponent.EncodeHasNoSeparator | src/lib/api/apiService.ts:147 | an encoded value never holds `&`, `=`, `?` or `#`, so it cannot break the query string |
| ApiService.QueryRoundTrip | src/lib/api/apiService.ts:139-154 | with keys free of `&` and `=`, splitting the query string on `&` and `=` and decoding each value gives back exactly the defined parameters, each once, in order, with their text |
| ApiService.DecodeRenderedPairs | src/lib/api/apiService.ts:140-148 | no rendered `key=value` piece holds `&`, and splitting and decoding the pieces one by one recovers the defined parameters as (key, text) pairs, in order |
| ApiService.PairRoundTrip | src/lib/api/apiService.ts:143-147 | one rendered `key=value` piece splits and decodes to its key and value text; a boolean's text is `true` or `false` |
| ApiService.SplitJoin | src/lib/api/apiService.ts:149 | splitting the `&`-join of pieces free of `&` gives the pieces |
| ApiService.SplitPairAtFirst | src/lib/api/apiService.ts:145-147 | a piece splits at its first `=`, so the key comes back whole when it has no `=` |
| ApiService.QueryStringEmpty | src/lib/api/apiService.ts:139-154 | the query string is empty exactly when no parameter is defined |
| ApiService.RenderedPairsEmpty | src/lib/api/apiService.ts:140-149 | no pieces exactly when every value is undefined |
| ApiService.TextPairsEmpty | src/lib/api/apiService.ts:140-141 | when no piece is rendered, no (key, text) pair is expected back either |
| ApiService.TextPairsMembership | src/lib/api/apiService.ts:140-147 | a (key, text) pair is expected back exactly when the parameters hold that key with a defined value whose text (booleans literal, numbers in decimal, strings as they are) is that text; undefined values are dropped |
| ApiService.StatusMessage | src/lib/api/apiService.ts:119-121 | the fallback message `Erro <status>: <statusText>` always starts with `Erro ` |
| ApiService.ResponseErrorMessage | src/lib/api/apiService.ts:114-126 | the body's message when truthy, else its error when truthy, else the status message, which is also used when the body does not parse; never empty |
| ApiService.HandleApiError | src/lib/api/apiService.ts:114-126 | the error carries the HTTP status and the message chosen by that precedence |
| ApiService.CatchToApiError | src/lib/api/apiService.ts:182-197 | an `ApiError` passes through unchanged; an `AbortError` becomes 408 with the timeout message; another `Error` becomes 500 with its own message; any other thrown value becomes 500 with `Erro desconhecido` |
| ApiService.FetchOutcome | src/lib/api/apiService.ts:162-197 | a 2xx response returns the parsed body unmodified; a non-ok response gives the `handleApiError` error; a rejected fetch or a body that does not parse is normalised by the catch block |
| ApiService.FetchApi | src/lib/api/apiService.ts:131-198 | the URL requested is `RequestUrl(endpoint, params)`; the result is `FetchOutcome` of what the network did |
| ApiService.RequestUrlShape | src/lib/api/apiService.ts:135-155 | the request URL starts with `buildApiUrl(endpoint)`, stays bare exactly when no parameter is defined, and otherwise continues with `?` and the query string |
| ApiService.Call | src/lib/api/apiService.ts:203-237 | each facade operation requests `CallUrl`, `fetchApi`'s URL for its own endpoint and its own parameters; the result is the transport's outcome as `fetchApi` shapes it |
| ApiService.CallUrlShape | src/lib/api/apiService.ts:203-237 | a facade URL is its endpoint's URL, bare exactly when the operation has no defined parameter (always for `getStatistics`), otherwise followed by '?' and the query string of the operation's own parameters |
| ApiService.CallUrlCarriesParameters | src/lib/api/apiService.ts:203-230 | two calls to one endpoint that request the same URL with a query carry the same defined parameters |
| ApiService.TextCallUrlInjective | src/lib/api/apiService.ts:213-230 | `validatePassword`, `encryptText` and `decryptText` request different URLs for different arguments |
| ApiService.CallQueryRoundTrip | src/lib/api/apiService.ts:203-230 | the query sent by any facade operation reads back to its defined parameters |
| ApiService.CallParamsPlainKeys | src/lib/api/apiService.ts:6-21 | the facade's parameter names contain no `&` or `=` |
| ApiService.GeneratePasswordQuery | src/lib/api/apiService.ts:139-154 | `generatePassword({length: 12, special: true})` sends `length=12&special=true` |
| ApiService.GeneratePasswordNoOptions | src/lib/api/apiService.ts:139-154 | `generatePassword()` with neither option defined sends no query at all |
| ApiService.ValidatePasswordQuery | src/lib/api/apiService.ts:214-216 | `validatePassword` sends exactly one pair, `password=` followed by the encoded password |
| ApiService.CallEndpointsDistinct | src/lib/api/apiService.ts:203-237 | different facade operations request different endpoints |
| ApiHook.CheckEnvelope | src/lib/hooks/useApiService.ts:70-76 | `success: false` gives a 400 error with `message \|\| error \|\| "Erro desconhecido"`; success without data gives 500 with `Resposta da API não contém dados`; otherwise the data |
| ApiHook.Settle | src/lib/hooks/useApiService.ts:67-97 | the final lane state: not loading, and exactly one of data and error set; the data of a good envelope, else the error's message |
| ApiHook.Lane.constructor | src/lib/hooks/useApiService.ts:20-24 | a lane starts as `{null, false, null}` |
| ApiHook.Lane.Begin | src/lib/hooks/useApiService.ts:61-65 | a trigger first sets its lane to `{null, true, null}` |
| ApiHook.Lane.Complete | src/lib/hooks/useApiService.ts:67-97 | the lane becomes the settled state of the request's outcome; nothing is thrown |
| ApiHook.Hook.constructor | src/lib/hooks/useApiService.ts:18-52 | five distinct lanes, all idle |
| ApiHook.Hook.GeneratePassword | src/lib/hooks/useApiService.ts:103-108 | requests `CallUrl` of `generatePassword({length, special: includeSpecial})` and returns that URL; the password lane ends as the settled outcome; the other four lanes are unchanged |
| ApiHook.Hook.ValidatePassword | src/lib/hooks/useApiService.ts:113-118 | requests `CallUrl` of `validatePassword({password})`; the validation lane ends as the settled outcome; the other lanes are unchanged |
| ApiHook.Hook.EncryptText | src/lib/hooks/useApiService.ts:123-128 | requests `CallUrl` of `encryptText({text})`; the encryption lane ends as the settled outcome; the other lanes are unchanged |
| ApiHook.Hook.DecryptText | src/lib/hooks/useApiService.ts:133-138 | requests `CallUrl` of `decryptText({encryptedText})`; the decryption lane ends as the settled outcome; the other lanes are unchanged |
| ApiHook.Hook.GetStatistics | src/lib/hooks/useApiService.ts:143-148 | requests `CallUrl` of `getStatistics()`, the bare statistics URL; the statistics lane ends as the settled outcome; the other lanes are unchanged |
| ApiHook.TimeoutSettlesWithMessage | src/lib/hooks/useApiService.ts:83-96 | an aborted request leaves the lane with the timeout message and no data |
| ApiHook.BadRequestMessage | src/lib/hooks/useApiService.ts:83-96 | a non-ok response whose body has a message leaves exactly that message in the lane |
| ApiHook.DeniedEnvelope | src/lib/hooks/useApiService.ts:70-72 | an ok response with `success: false` and no message or error leaves `Erro desconhecido` |
| PasswordStrength.Utf16Length | src/components/ui/PasswordStrengthMeter.tsx:68 | the `.length` of a string, counted in UTF-16 code units: between the number of characters and twice that |
| PasswordStrength.Count | src/components/ui/PasswordStrengthMeter.tsx:74-81 | the score is the number of criteria met: at most 6, 6 exactly when all hold, 0 exactly when none does |
| PasswordStrength.LevelOf | src/components/ui/PasswordStrengthMeter.tsx:84-99 | weak exactly for scores up to 2, medium for 3–4, strong for 5, very strong above; never empty |
| PasswordStrength.ExternalLevel | src/components/ui/PasswordStrengthMeter.tsx:32-53 | `weak`, `medium`, `strong` map to their levels; `very-strong` and `very strong` both map to very strong; anything else to empty |
| PasswordStrength.Percentage | src/components/ui/PasswordStrengthMeter.tsx:107-133 | the bar is 0, 25, 50, 75, 100 percent from empty to very strong, 25 per level |
| PasswordStrength.Evaluate | src/components/ui/PasswordStrengthMeter.tsx:24-104 | with an external score and a non-empty external strength, the score is taken verbatim and the level mapped; otherwise an empty password gives empty and 0; otherwise the score counts the six criteria, lies in 0..6 and sets the level; the feedback always matches the level |
| PasswordStrength.ChecklistMatchesScore | src/components/ui/PasswordStrengthMeter.tsx:156-161 | for a non-empty password the checklist marks exactly the criteria the score counts |
| PasswordStrength.Utf16LengthAppend | src/components/ui/PasswordStrengthMeter.tsx:68 | appending a character adds at least one code unit |
| PasswordStrength.AppendNeverLowersScore | src/components/ui/PasswordStrengthMeter.tsx:68-81 | appending a character never lowers the local score |
| PasswordStrength.LevelMonotone | src/components/ui/PasswordStrengthMeter.tsx:87-99 | a higher score never gives a lower level |
| PasswordStrength.AppendNeverLowersLevel | src/components/ui/PasswordStrengthMeter.tsx:68-99 | appending a character never lowers the level or the bar |
| PasswordStrength.VeryStrongNeedsEverything | src/components/ui/PasswordStrengthMeter.tsx:68-99 | a local very-strong level means all six criteria hold |
| PasswordStrength.ScoreExamples | src/components/ui/PasswordStrengthMeter.tsx:68-99 | concrete passwords score as the thresholds say |
| TerminalTyping.Terminal.constructor | src/components/ui/TerminalAnimation.tsx:17-19 | the typewriter starts with nothing shown, at line 0, character 0 |
| TerminalTyping.Terminal.Tick | src/components/ui/TerminalAnimation.tsx:31-51 | one tick as written: past the last line nothing changes; inside a line the line's entry becomes the next longer prefix (pushed when the list is shorter, overwritten otherwise) and the character advances; at the end of a line the next line starts and the list is unchanged |
| TerminalTyping.WellFormedStep | src/components/ui/TerminalAnimation.tsx:34-51 | `currentChar` never exceeds the current line's length, and the list is never longer than `currentLine + 1` |
| TerminalTyping.DoneIsFinal | src/components/ui/TerminalAnimation.tsx:31 | once every line is done, no tick changes the state |
| TerminalTyping.StepConsumesOneTick | src/components/ui/TerminalAnimation.tsx:34-51 | every tick before the end takes exactly one off the ticks remaining |
| TerminalTyping.StepKeepsTyped | src/components/ui/TerminalAnimation.tsx:34-51 | with no empty line, every tick keeps the invariant: lines before the current one shown in full, the current one shown up to `currentChar`, nothing else |
| TerminalTyping.RunTypesEverything | src/components/ui/TerminalAnimation.tsx:31-51 | with no empty line, from any invariant state the remaining ticks end with every line shown in full |
| TerminalTyping.StartIsTyped | src/components/ui/TerminalAnimation.tsx:17-19 | the start state satisfies the invariant with Σ\|lines[i]\| + \|lines\| ticks ahead |
| TerminalTyping.RunFromStart | src/components/ui/TerminalAnimation.tsx:31-51 | with no empty line, after Σ\|lines[i]\| + \|lines\| ticks the shown lines equal the lines and the effect has stopped |
| TerminalTyping.EmptyLineCounterexample | src/components/ui/TerminalAnimation.tsx:37-41 | the lines `a`, ``, `bc` end up shown as `a`, `b`, `bc` |
| TerminalTyping.StepFixedAgrees | src/components/ui/TerminalAnimation.tsx:34-51 | on a non-empty line the corrected tick is the tick as written |
| TerminalTyping.StepFixedKeepsTyped | src/components/ui/TerminalAnimation.tsx:34-51 | the corrected tick keeps the invariant for any lines, empty ones included, and uses up one tick |
| TerminalTyping.RunFixedTypesEverything | src/components/ui/TerminalAnimation.tsx:31-51 | the corrected effect ends with every line shown, from any invariant state |
| TerminalTyping.RunFixedFromStart | src/components/ui/TerminalAnimation.tsx:31-51 | the corrected effect shows exactly the lines after Σ\|lines[i]\| + \|lines\| ticks, for any lines |
| Icons.Keys | src/components/ui/Icon.tsx:125 | `Object.keys` of a registry lists its keys in entry order |
| Icons.Lookup | src/components/ui/Icon.tsx:79 | a lookup finds an icon exactly when the key is present |
| Icons.Put | src/components/ui/Icon.tsx:32-36 | writing a key keeps the place of a known key and appends a new one |
| Icons.PutLookup | src/components/ui/Icon.tsx:32-36 | after writing a key it resolves to the new icon, and every other key is unaffected |
| Icons.PutKeepsDistinct | src/components/ui/Icon.tsx:32-36 | writing a key never creates a duplicate key |
| Icons.SpreadLookup | src/components/ui/Icon.tsx:32-36 | after spreading a library in, its keys resolve to its icons and every other key as before; keys stay distinct |
| Icons.MergeLookup | src/components/ui/Icon.tsx:32-36 | in the merged registry a key resolves to the icon of the last library that has it, so later libraries override earlier ones |
| Icons.FirstMatch | src/components/ui/Icon.tsx:92-99 | some candidate is found exactly when one is in the registry; the result is the registry's icon for the first such candidate |
| Icons.PhosphorCandidate | src/components/ui/Icon.tsx:74-80 | a name starting with `Pi` has one candidate, the name plus the weight's suffix; under the default weight that is the name |
| Icons.OtherCandidates | src/components/ui/Icon.tsx:83-90 | any other name is tried as it is, then with the weight's suffix |
| Icons.ResolveFirstCandidate | src/components/ui/Icon.tsx:57-108 | an empty name gives the fallback; otherwise an icon is rendered exactly when a candidate is present; for a non-`Pi` name the name itself wins, else the suffixed name |
| Icons.FilterKeys | src/components/ui/Icon.tsx:125-131 | the filter keeps exactly the keys that pass, each as often as it occurs, as a subsequence of the input (so in their order) |
| Icons.AsWrittenListing | src/components/ui/Icon.tsx:125-131 | as written, a key is listed exactly when it is in the registry and its first two characters are a library name |
| Icons.VscIconsNeverListed | src/components/ui/Icon.tsx:127-130 | as written, no key starting with `Vsc` is listed |
| Icons.ListingKeepsLibraryKeys | src/components/ui/Icon.tsx:124-131 | the corrected listing keeps exactly the registry keys that start with a library name, `Vsc` keys included |
| Icons.AsWrittenWithinIntended | src/components/ui/Icon.tsx:124-131 | everything listed as written is also in the corrected listing |
| IconPicker.Lower | src/components/ui/IconPicker.tsx:21 | lower-casing keeps the length and lowers each ASCII capital |
| IconPicker.Filtered | src/components/ui/IconPicker.tsx:20-24 | an icon is kept exactly when the term is empty or occurs case-insensitively in it, and no library is chosen or it starts with the library; the result is an order-preserving subsequence |
| IconPicker.Displayed | src/components/ui/IconPicker.tsx:27 | the first `min(100, N)` of the N matches |
| IconPicker.NotesMeaning | src/components/ui/IconPicker.tsx:141-151 | the "Mostrando 100 de N" note shows exactly when matches are hidden, i.e. N > 100; "Nenhum ícone encontrado" exactly when nothing matched |
| IconPicker.NoFilterKeepsAll | src/components/ui/IconPicker.tsx:21-22 | an empty search with no library keeps every icon in order |
| IconPicker.SearchIgnoresCase | src/components/ui/IconPicker.tsx:21 | a term and its lower-case form select the same icons |
| IconPicker.VscFilterShowsNothing | src/components/ui/IconPicker.tsx:22 | over the listing as written, choosing the `Vsc` button shows no icon whatever the registry |
| IconPicker.VscFilterShowsVscIcons | src/components/ui/IconPicker.tsx:22 | over the corrected listing, choosing `Vsc` shows every matching `Vsc` icon |
| IconPicker.LessEqTotal | src/components/ui/IconPicker.tsx:30 | any two strings are ordered one way or the other, character by character; this is `sort`'s UTF-16 code-unit order for characters below U+10000, which covers the ASCII library names |
| IconPicker.Insert | src/components/ui/IconPicker.tsx:30 | inserting into a sorted list keeps it sorted and adds exactly that element |
| IconPicker.Sort | src/components/ui/IconPicker.tsx:30 | the sort result is sorted and a permutation of its input |
| IconPicker.SortKeepsSorted | src/components/ui/IconPicker.tsx:30 | sorting a sorted list changes nothing |
| IconPicker.LibraryOptionsAsDeclared | src/components/ui/IconPicker.tsx:30 | the library buttons are the twenty-five library names in the declared order, which is already sorted |
| IconPicker.Picker.constructor | src/components/ui/IconPicker.tsx:13-15 | the picker starts closed with no search and no library |
| IconPicker.Picker.Close | src/components/ui/IconPicker.tsx:58-64 | closing resets the search to `""` and the library to none |
| IconPicker.Picker.Toggle | src/components/ui/IconPicker.tsx:71 | the button flips open and closed; opening shows the unfiltered first hundred; closing resets the filters |
| IconPicker.Picker.ClickOutside | src/components/ui/IconPicker.tsx:41-56 | a click outside closes and resets an open picker and does nothing to a closed one |
| IconPicker.Picker.SetSearchTerm | src/components/ui/IconPicker.tsx:86-93 | typing sets the term and keeps the library; the matches follow the filter rule |
| IconPicker.Picker.SelectLibrary | src/components/ui/IconPicker.tsx:96-119 | a library button (or `Todos`, none) sets the library and keeps the term |
| IconPicker.Picker.SelectIcon | src/components/ui/IconPicker.tsx:124-133 | clicking a shown icon reports that name, one of the listed icons, and closes the picker with the filters reset |

## Left out

- The network, `AbortController`, the 30-second timer, headers, `cache: 'no-store'`, JSON parsing and logging. They appear only as the `Transport` and `Parsed` values they produce. The timeout is the constant `ApiConfig.RequestTimeoutMs`.
- `ApiService.FetchOutcome`: a `Rejected(ThrownApiError)` transport cannot come out of `fetch` itself. It is kept because the catch block tests for it first.
- JSON bodies that parse to something other than an object, and `message`/`error` fields that are not strings. Both are outside the `Envelope` type.
- Parameter values are strings, integers, booleans or undefined. Fractional numbers are not modelled, so `Decimal` covers integers only.
- Decimal.IntToString: writes every digit of every integer. JavaScript's `String(n)` agrees only for safe integers (magnitude at most 2^53 - 1); it writes magnitudes of 10^21 and above in exponent form (`"1e+21"`), and larger integers are not exact numbers at all. Numbers in those ranges are outside what the model promises.
- `Object.entries` lists integer-like keys first. None of the facade's keys is integer-like, so parameters keep the order they are given in.
- `UriComponent.Encode`: strings are sequences of Unicode scalar values. A lone surrogate, for which `encodeURIComponent` throws `URIError`, cannot be represented.
- `ApiHook.Lane.Complete`: the branches of the hook's catch for thrown values that are not `ApiError` (useApiService.ts:86-88) are not modelled. The service turns every failure into an `ApiError`, so those branches are unreachable.
- Concurrent triggers on one lane, where the last promise to settle wins. `Begin` and `Complete` are sequential steps. React's `useState` and `useCallback` plumbing is not modelled.
- What the remote service computes: generated passwords, validation and encryption results.
- `PasswordStrength`: the character classes are ASCII, as the regular expressions are.
- IconPicker.Lower: `toLowerCase` is modelled on ASCII capitals only. Unicode case mapping is not modelled.
- The meter's icons and colours, except for the bar percentage.
- `TerminalTyping.Terminal.Tick`: the cursor blink, the typing delay and the 500 ms pause before the next line are not modelled. Each timer callback is one tick.
- The React re-render that the `lines` and `typingSpeed` dependencies trigger mid-animation.
- `IconPicker.Picker`: focusing the search box, the `value` highlight, and the button's label or icon for the current value are presentation only.
- The react-icons component sets themselves. Each library is an abstract list of (name, icon) entries with distinct names.
- Icons.Resolve: `IconLibraries[attempt]` also finds members inherited from `Object.prototype`, so a name such as `"toString"` or `"constructor"` is truthy in JavaScript and gets no fallback. `Icons.Lookup` sees only the registry's own keys and treats such a name as absent.
- Icon `size`, `color` and `className` are passed through to the component. The warnings logged to the console are not modelled.

## Findings

| source | as written | input that shows it | evidently intended | confidence | as-written member | corrected member |
|---|---|---|---|---|---|---|
| src/components/ui/TerminalAnimation.tsx:34-50 | an empty line gets no entry in `displayedLines`, so the list falls one short of `currentLine`; from then on, every tick on a later line pushes a new entry instead of overwriting that line's entry | lines `["a", "", "bc"]`: after the 6 ticks the effect runs, it shows `["a", "b", "bc"]` | every line is shown, empty ones as empty entries, so the effect ends showing exactly `lines` | not executed; latent, the repository's callers pass only non-empty lines | TerminalTyping.EmptyLineCounterexample | TerminalTyping.RunFixedFromStart |
| src/components/ui/Icon.tsx:125-130 | a key is kept when its first two characters are a library name, so the three-letter library `Vsc` never matches and all of its icons are dropped; the picker's `Vsc` button then always shows nothing | any registry with a key such as `VscAccount`: it is not listed, and choosing `Vsc` shows an empty grid | keep the keys that start with a library name, as the comment on the filter says | not executed | IconPicker.VscFilterShowsNothing | Icons.ListingKeepsLibraryKeys |

About the typewriter finding: `TerminalTyping.Terminal.Tick` follows the code as written, and the corrected tick `TerminalTyping.StepFixed` is defined and proved beside it. `TerminalTyping.StepFixedAgrees` shows the two agree whenever the current line is non-empty. So for the lines the repository actually passes, the class has the corrected behaviour.

About the icon finding: the picker model takes its icon list as a parameter. `Icons.AvailableIcons` is the corrected listing, and `Icons.AsWrittenListing` describes the code.
