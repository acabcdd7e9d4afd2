# STFU: automatic tab muting by URL prefix

A Dafny model of the two scripts of the STFU browser extension.

- **The background script** (`background.js`) keeps a list of URL-prefix rules `{url, enabled}` in the extension's local storage. It mutes every tab whose URL starts with an enabled prefix and unmutes the others. It reconciles one tab when that tab loads or is created. It reconciles every open tab on install, when the rules change, and when the popup asks for a refresh. A tab is written only when its reported mute flag differs from the verdict.
- **The popup** (`popup.js`) edits the rule list. It can add a prefix (trimmed, given `https://` when it has no http or https scheme, refused when empty, malformed or already present). It can toggle one rule, delete one rule, and add the origin of the active tab.

Layout:

- `wrappers.dfy`: `Option`.
- `text.dfy`: `startsWith` and `trim` on strings.
- `matching.dfy`: the stored rule list (`Storage`, a class whose `prefixes` field the popup reassigns), `getEnabledPrefixes` and `urlMatchesPrefix`.
- `sync.dfy`: the background script's reconciliation and dispatch.
  - `Browser` is a class over an `array<Tab>`. Its ghost field `issued` records every `tabs.update` call, including one the host refuses, so "no redundant update" can be stated.
  - `ReconcileAll` and `PlannedUpdates` specify a full pass tab by tab.
- `editor.dfy`: the popup's edit operations, as methods that modify a `Storage`.

Both scripts treat an absent value by JavaScript truthiness, and the model does the same:
- an absent `url` or `changeInfo.url` is the empty string;
- an absent `mutedInfo` is `None`;
- an absent stored list is `None`, read as empty.

## Model

| member | source | states |
|---|---|---|
| Matching.EnabledUrls | background.js:23 | the result lists exactly the URLs of the enabled rules and is no longer than the rule list |
| Matching.EnabledPrefixes | background.js:20-24 | an absent list yields no prefixes; otherwise a URL is a prefix iff some enabled stored rule has it |
| Matching.EnabledUrlsAppend | background.js:23 | the projection keeps stored order: it distributes over concatenation |
| Matching.EnabledPrefixesAppendRule | background.js:23 | appending an enabled rule appends its URL after all earlier enabled prefixes |
| Matching.DisabledRuleIgnored | background.js:23 | dropping a disabled rule leaves the enabled prefixes unchanged |
| Matching.AnyPrefixOf | background.js:34 | true iff some listed prefix is a literal string prefix of the URL |
| Matching.UrlMatchesPrefix | background.js:32-35 | true iff the URL is non-empty and some prefix in the list is a literal prefix of it; an empty URL or an empty list never matches |
| Matching.MatchIgnoresOrder | background.js:34 | two prefix lists with the same members give the same verdict for every URL |
| Matching.EnabledRuleMatches | background.js:20-35 | an enabled rule matches every non-empty URL it is a prefix of |
| Matching.OnlyEnabledRulesMatch | background.js:20-35 | a URL that no enabled rule is a prefix of never matches, whatever the disabled rules hold |
| Matching.MatchingScenarios | background.js:20-35 | a URL under an enabled prefix matches; an unrelated URL does not; a URL under a disabled rule does not |
| Text.Trim | popup.js:79 | empty iff the input is all whitespace; neither end of a non-empty result is whitespace; input without surrounding whitespace is returned unchanged |
| Text.TrimmedSlice | popup.js:79 | the result is the input with a leading run and a trailing run of whitespace removed, and nothing else |
| Text.TrimIdempotent | popup.js:79 | trimming a trimmed string changes nothing |
| Sync.Dispatch | background.js:82-109 | `onUpdated` reconciles one tab iff the URL changed or the status is "complete"; `onCreated` iff the tab has a URL; a storage change runs a full pass iff the area is "local" and the prefixes changed; a message runs one iff its action is "refreshTabs"; install initialises |
| Sync.Reconciled | background.js:51-53 | a tab without a mute flag is unchanged; otherwise its flag becomes the verdict; id and URL never change; afterwards the tab never needs an update |
| Sync.Swept | background.js:69-73 | one tab of a full pass keeps its id and URL, is left not pending, and changes iff it was pending |
| Sync.ReconcileAll | background.js:68-75 | a full pass yields one tab per open tab |
| Sync.PlannedUpdates | background.js:68-75 | a full pass issues at most one update per open tab |
| Sync.ReconcileAllAt | background.js:68-75 | position k after a full pass is tab k swept on its own |
| Sync.ReconcileAllEffect | background.js:68-75 | a full pass keeps every id and URL; tabs without a URL or a mute flag are untouched; every other tab ends muted iff its URL matches an enabled prefix |
| Sync.PlannedUpdatesEmpty | background.js:71-72 | a pass issues no update iff no tab is pending |
| Sync.PlannedUpdatesExact | background.js:68-75 | an update is issued iff some tab with a URL has a mute flag different from its verdict, and it carries that tab's id and verdict |
| Sync.ReconcileAllSettles | background.js:68-75 | after a full pass no tab is pending, so a second pass issues nothing |
| Sync.ReconcileAllIdempotent | background.js:68-75 | a second full pass with nothing changed in between leaves the tabs as the first left them |
| Sync.NewPrefixMutesOnlyItsTabs | background.js:68-75 | over settled tabs, a pass with one more prefix mutes every tab with a mute flag whose URL starts with it and leaves every tab whose URL does not exactly as it was |
| Sync.AddedRuleMutesOnlyItsTabs | popup.js:109-120 | the same, for the enabled rule that `addPrefix` appends to the stored list |
| Sync.Refused | background.js:64-78 | a pass with no refused tab ids is never cut short |
| Sync.RefusedExact | background.js:64-78 | a pass is cut short iff some pending tab's update is refused |
| Sync.PassKeepsDistinctIds | background.js:68-75 | a pass, complete or stopped part-way, keeps every tab's id, so ids stay distinct |
| Sync.FindTab | background.js:48 | a found position holds a tab with that id; nothing is found iff no open tab has that id |
| Sync.Browser.ProcessTab | background.js:42-58 | the verdict comes from the URL passed in; a tab that has gone leaves everything unchanged; when the tab's flag differs from the verdict exactly one update call is logged, and the flag becomes the verdict unless the host refuses the call; otherwise nothing changes; an empty URL can only unmute |
| Sync.Browser.SweepTab | background.js:68-75 | one loop step: a pending tab gets exactly one update call logged and is swept, unless the host refuses the call, which leaves every tab as it was and reports the refusal; a tab that is not pending changes nothing |
| Sync.Browser.SweepAll | background.js:68-79 | the pass succeeds iff no pending tab's update is refused. On success the tabs are `ReconcileAll` of the old tabs, the log grows by exactly `PlannedUpdates`, and nothing is left pending. Otherwise it stops at the first refused tab: earlier tabs are swept, the log holds their updates and then the refused call, and that tab and all later ones are untouched |
| Sync.Browser.CheckAllTabs | background.js:63-79 | the same, with the enabled prefixes read once from storage; the open tabs' ids stay distinct |
| Sync.Browser.OnInstalled | background.js:7-14 | an absent rule list becomes the empty list (a stored list is kept); then a pass runs with the resulting rules, with the tabs and the log `CheckAllTabs` states, whether it completes or stops at a refused tab; when no update is refused every tab is reconciled and nothing is left pending |
| Sync.Browser.Handle | background.js:82-109 | each event goes where `Dispatch` routes it: a tab event has exactly the effect of `processTab` on the tab id and URL it carries; a rules change, refresh request or install has exactly the effect of a full pass; an ignored event changes neither tabs nor log; only install writes the rule list |
| Sync.RefreshTwice | background.js:63-79 | when a full pass completes, a second one right after it also completes and issues no update |
| Editor.WithScheme | popup.js:86-89 | the result has an http or https scheme; input that already has one is kept; otherwise "https://" is prepended exactly once |
| Editor.Normalized | popup.js:79-89 | the stored URL has an http or https scheme; it is the trimmed input when that already has one, else the trimmed input after "https://" |
| Editor.WithSchemeStable | popup.js:79-89 | a trimmed URL given a scheme is still trimmed, and giving it a scheme again changes nothing |
| Editor.NormalizedIsStable | popup.js:79-89 | normalising a stored URL again gives it back |
| Editor.HasUrl | popup.js:103 | true iff some rule's URL equals the given one exactly |
| Editor.AppendKeepsDistinct | popup.js:103-109 | appending a URL not yet present keeps rule URLs pairwise distinct |
| Editor.Toggled | popup.js:131-132 | only the indexed rule's flag flips; its URL and every other rule are unchanged |
| Editor.ToggleTwice | popup.js:131-132 | toggling the same rule twice restores the list |
| Editor.Removed | popup.js:148-149 | exactly the indexed rule is gone; the others keep their relative order; the length drops by one |
| Editor.RemoveKeepsDistinct | popup.js:148-149 | removing a rule keeps rule URLs distinct |
| Editor.AddPrefix | popup.js:77-121 | outcome EmptyInput iff the trimmed input is empty; InvalidUrl iff it is not and the normalised URL is malformed; Duplicate iff it is well formed and a rule already has that exact URL; Added iff none of these; each refusal leaves storage unchanged; Added appends `{url, enabled: true}` after all earlier rules; distinct URLs stay distinct |
| Editor.TogglePrefix | popup.js:127-138 | an index holding no stored rule does nothing and sends no refresh; otherwise the stored list becomes `Toggled` at that index and a refresh is sent |
| Editor.DeletePrefix | popup.js:144-158 | an index holding no stored rule does nothing; otherwise the stored list becomes `Removed` at that index and a refresh is sent |
| Editor.UnsupportedUrl | popup.js:177-181 | a page without a URL is refused, and no refused page has an http or https URL |
| Editor.AddCurrentTab | popup.js:163-195 | no active tab, or a page with no URL or an `about:` or `moz-extension:` URL, is refused with storage unchanged; an origin that cannot be parsed is an error; otherwise the outcome and the stored list are exactly those of `addPrefix` on the origin; distinct URLs stay distinct |
| Editor.DisplayIndexMismatch | popup.js:26-64 | with two rules stored out of URL order, the row shown first hands index 0 to toggle, which flips the rule shown second |

## Left out

- The DOM: `createPrefixItem`, `showMessage`, the three-second timer, the button and keypress wiring, and the list rendering in `loadPrefixes`. These are UI only.
- The display sort in `loadPrefixes`: `localeCompare` is locale-dependent and the sorted copy is never stored. `Editor.DisplayIndexMismatch` shows its one effect: toggle and delete act on the stored order, not the shown order.
- `new URL(...)` validation and `.origin` are foreign URL parsing. They are parameters (`validUrl`, `originOf`) of `AddPrefix` and `AddCurrentTab`.
- `Text.IsWhitespace` lists the Unicode space separators known today; a separator added by a later Unicode version is not modelled.
- The host's own changes to the open tabs (a tab created, closed or navigated) are not operations of the model. The event a listener receives is not tied to the `tabs` array either: the caller supplies an array consistent with the events it sends.
- Asynchrony and interleaving: every handler runs as one atomic step over in-memory state. A storage change and a popup refresh that race are not modelled.
- Host failures are inputs.
  - `tabs.get` failing is the tab id not being open.
  - A refused `tabs.update` is the tab id being in `rejected`.
  - A failing `tabs.query` or storage read is not modelled.
- `Sync.Browser.SweepAll`: the whole loop of `checkAllTabs` sits inside one `try`, so the first refused update ends the pass and the later tabs keep their flags. The model follows the code here, not the intent that one failing tab should leave the others to be checked.
- The `sendMessage` refresh after an edit is the `notified` result of `TogglePrefix` and `DeletePrefix`. For `AddPrefix` it is the `Added` outcome. The background's reaction to it is `Sync.Browser.Handle`.
- `console.debug` and `console.error` logging.
