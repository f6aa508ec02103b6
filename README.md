# whats-blast-platform core, modelled in Dafny

This project models the three stateful components of the WhatsApp
bulk-messaging dashboard.

- **Template composer** (`TemplateComposer.tsx`):
  - the `{{word}}` variable scanner behind `extractVariables` and `replaceVariables`;
  - the merged, duplicate-free variable list that `updateVariables` stores in the draft;
  - the editor state: the saved templates, the draft and the id under edit;
  - its operations: edit a field, save (append or replace by id), load for editing, delete by id;
  - what `renderPreview` shows.
- **Contact manager** (`ContactManager.tsx`):
  - the comma/newline decoder run by the file reader's `onload` handler;
  - the `exportContacts` encoder;
  - the search filter and the contact statistics;
  - the contact list: import appends to it, "Clear All" empties it.
- **Campaign manager** (`CampaignManager.tsx`):
  - the campaign list, seeded with two campaigns;
  - the creation form and its validation;
  - the running/paused toggle;
  - the statistics cards and the per-campaign pending count.

Files:

- `optional.dfy`: `Option`.
- `strings.dfy`: ASCII `trim`, `split`/`join` on one character, lower case, substring search.
- `unique.dfy`: `[...new Set(xs)]`, a first-occurrence de-duplication.
- `variables.dfy`: module `TemplateVariables`. The regular expression `/\{\{(\w+)\}\}/g` as an explicit left-to-right scanner, with `Extract` and `Render` on top of it.
- `templates.dfy`: module `TemplateComposer`, with the class `TemplateEditor`.
- `contacts.dfy`: module `ContactManager`, with the class `ContactBook`. Decoding is a pair of loops, as in the handler.
- `contacts_roundtrip.dfy`: module `ContactRoundTrip`. It proves that importing an export of plain contacts restores each contact's phone, name and variable bindings, under new ids and without the order of keys (see `ContactRoundTrip.DecodeEncode` under "## Left out").
- `campaigns.dfy`: module `CampaignManager`, with the class `CampaignLedger`.

Values the browser supplies become parameters:

- the `Date.now()` ids: `freshId`, and `stamp` in `ContactId(stamp, line)`;
- the ISO creation date: `today`;
- the file's text: `csv`;
- the preview's sample bindings: `bindings`.

A contact's `variables` object is an ordered list of key/value pairs (`Vars`). Assigning an existing key overwrites it in place; a new key goes last, as a JavaScript object keeps insertion order. `editingId` is a string in which `""` stands for `null`. The component only tests it for truthiness, and both values are falsy.

In these places the model follows what the code does, which is not what a reader might expect:

- `extractVariables` keeps duplicates. Only the merge in `updateVariables` removes them. The merge order is body, then text header, then footer.
- Editing the header does not recompute `variables` (`TemplateComposer.tsx:222-226`).
- Body and footer edits schedule `updateVariables` from the render that handled the event. That closure reads the draft as it was BEFORE the edit. So the stored variables lag one edit behind (`WithBody`, `BodyEditLagsBehind`), and a save copies whatever the draft holds.
- Saving while editing replaces every template with that id. If the id is gone (deleted meanwhile), nothing is replaced, the draft is still cleared, and there is no not-found error.
- `toggleCampaign` sends every non-running status to `running`, including `draft`, `scheduled` and `completed`. Only the UI hides the button for them (`CampaignManager.tsx:251`).
- A created campaign's template name is always `"Sample Template"`.
- No code path updates the delivery counters. There is no progress update and no error taxonomy; a refused operation leaves the state unchanged and reports `false`.
- The exported text has no trailing newline: rows are joined with `'\n'`.

## Model

| member | source | states |
|---|---|---|
| `Strings.Trim` | src/components/ContactManager.tsx:40 | the result has no leading or trailing whitespace, is a contiguous piece of the input, and is empty exactly when the input is blank |
| `Strings.TrimDropsOnlyBlanks` | src/components/ContactManager.tsx:40 | trimming removes only whitespace: everything before and after the kept piece is whitespace |
| `Strings.TrimOfTrimmed` | src/components/ContactManager.tsx:40 | trimming text that is already trimmed leaves it unchanged |
| `Strings.Split` | src/components/ContactManager.tsx:39 | at least one piece, and no piece contains the separator |
| `Strings.Join` | src/components/ContactManager.tsx:90-96 | the pieces in order: the first piece leads the result, followed by the separator when more pieces follow; `SplitJoin` and `JoinSplit` make it the inverse of `Split` |
| `Strings.JoinSplit` | src/components/ContactManager.tsx:39-45 | joining the pieces of a split with the same character gives the text back |
| `Strings.SplitJoin` | src/components/ContactManager.tsx:89-96 | splitting a join of separator-free pieces gives the pieces back (export rows and cells read back by import) |
| `Strings.Lower` | src/components/ContactManager.tsx:108 | lower-casing keeps the length and maps each character to its ASCII lower case |
| `Strings.Contains` | src/components/ContactManager.tsx:108-109 | `includes`: the empty term is in every text, and a longer term is never in a shorter text |
| `Strings.ContainsAt` | src/components/ContactManager.tsx:108-109 | `includes` holds exactly when the term occurs at some position |
| `Unique.Dedup` | src/components/TemplateComposer.tsx:55 | `[...new Set(xs)]` has no duplicates and holds exactly the elements of `xs` |
| `Unique.DedupOrder` | src/components/TemplateComposer.tsx:55 | the kept elements come in the order of their first occurrences |
| `Unique.DedupPrefix` | src/components/TemplateComposer.tsx:55 | de-duplicating a prefix gives a prefix of the de-duplicated whole |
| `TemplateVariables.Scan` | src/components/TemplateComposer.tsx:44 | the regular expression as a scanner: every matched piece is a well-formed `\w+` name |
| `TemplateVariables.Extract` | src/components/TemplateComposer.tsx:43-46 | every name found is non-empty and made of `[A-Za-z0-9_]` |
| `TemplateVariables.ScanLossless` | src/components/TemplateComposer.tsx:44 | the scanner splits text into literal characters and `{{word}}` tokens without losing or adding a character |
| `TemplateVariables.TokenRecognised` | src/components/TemplateComposer.tsx:44 | a `{{name}}` with a well-formed name at the scan position is matched, with that name |
| `TemplateVariables.ExtractEmptyIff` | src/components/TemplateComposer.tsx:44-45 | no names are found exactly when the text contains no well-formed token (`match` returns `null`) |
| `TemplateVariables.ExtractTokenFirst` | src/components/TemplateComposer.tsx:44-45 | a leading token contributes its name first, then scanning resumes after it |
| `TemplateVariables.ExtractNoTokenFirst` | src/components/TemplateComposer.tsx:44 | at a position where no token starts, the scan moves on one character |
| `TemplateVariables.ExtractKeepsDuplicates` | src/components/TemplateComposer.tsx:43-46 | `{{a}}{{b}}{{a}}` yields `[a, b, a]`: extraction alone does not de-duplicate |
| `TemplateVariables.MalformedNotReported` | src/components/TemplateComposer.tsx:44 | `{{a b}}` yields no name |
| `TemplateVariables.SingleBracesNotReported` | src/components/TemplateComposer.tsx:44 | `{a}` yields no name |
| `TemplateVariables.ExtractNeedsOpening` | src/components/TemplateComposer.tsx:44 | text without two adjacent opening braces yields no name |
| `TemplateVariables.NoBraceNoToken` | src/components/TemplateComposer.tsx:44 | text without an opening brace yields no name |
| `TemplateVariables.RenderTokenFirst` | src/components/TemplateComposer.tsx:125-127 | a leading token is replaced by its binding, or kept verbatim, and the rest is rendered |
| `TemplateVariables.RenderNoTokenFirst` | src/components/TemplateComposer.tsx:125 | at a position where no match starts, including a `{` that opens no token, the character is copied unchanged and replacing continues after it |
| `TemplateVariables.RenderLiteralFirst` | src/components/TemplateComposer.tsx:125 | a leading character other than `{` is copied unchanged, and replacing continues after it |
| `TemplateVariables.FillUnbound` | src/components/TemplateComposer.tsx:125-127 | when every token maps to itself, filling the pieces reproduces the text |
| `TemplateVariables.Render` | src/components/TemplateComposer.tsx:124-128 | `replaceVariables`: text none of whose tokens has a non-empty binding comes back unchanged |
| `TemplateVariables.RenderWithoutBindings` | src/components/TemplateComposer.tsx:124-128 | with no bindings the output equals the input |
| `TemplateVariables.RenderLeavesUnboundVerbatim` | src/components/TemplateComposer.tsx:125-127 | `{{n}}, {{u}}` with only `n` bound renders as the value, `, ` and `{{u}}` verbatim |
| `TemplateVariables.RenderMalformedVerbatim` | src/components/TemplateComposer.tsx:125-127 | `{{a b}}` is copied unchanged whatever the bindings |
| `TemplateVariables.RenderExtraBrace` | src/components/TemplateComposer.tsx:125-127 | `{{{n}}}` keeps the outer braces and replaces the inner token |
| `TemplateComposer.DraftVariables` | src/components/TemplateComposer.tsx:48-57 | the stored list has no duplicates and holds exactly the names found in body, text header and footer |
| `TemplateComposer.DraftVariablesAreNames` | src/components/TemplateComposer.tsx:48-55 | every variable is a well-formed name |
| `TemplateComposer.DraftVariablesOrder` | src/components/TemplateComposer.tsx:49-55 | variables come in the order of first occurrence over body, then header, then footer |
| `TemplateComposer.DraftVariablesBodyFirst` | src/components/TemplateComposer.tsx:49-55 | the body's own variables form a prefix of the list |
| `TemplateComposer.MediaHeaderIgnored` | src/components/TemplateComposer.tsx:50-52 | a media header contributes no variable |
| `TemplateComposer.Refreshed` | src/components/TemplateComposer.tsx:56 | `updateVariables` changes only `variables`, which then match the draft |
| `TemplateComposer.WithHeaderText` | src/components/TemplateComposer.tsx:222-226 | a header edit installs a text header with the typed content and changes nothing else, `variables` included |
| `TemplateComposer.WithBody` | src/components/TemplateComposer.tsx:239-242 | a body edit sets the body and stores the variables of the draft as it was before the edit; every other field is kept |
| `TemplateComposer.WithFooter` | src/components/TemplateComposer.tsx:254-257 | a footer edit sets the footer and stores the variables of the draft as it was before the edit; every other field is kept |
| `TemplateComposer.BodyEditLagsBehind` | src/components/TemplateComposer.tsx:239-242 | typing `{{n}}` into a new draft leaves `variables` empty although the draft's variables are `[n]` |
| `TemplateComposer.RepeatedBodyEditCatchesUp` | src/components/TemplateComposer.tsx:239-242 | a second identical edit brings `variables` up to date |
| `TemplateComposer.HeaderEditNotSaved` | src/components/TemplateComposer.tsx:222-226 | a header `{{n}}` is not reflected in `variables` |
| `TemplateComposer.BuildTemplate` | src/components/TemplateComposer.tsx:69-78 | the saved template carries the given id and a non-empty category; loading it back for editing gives the draft, with an empty category replaced by `marketing` |
| `TemplateComposer.ReplaceById` | src/components/TemplateComposer.tsx:81 | same length; entries with the id are replaced, all others kept in place |
| `TemplateComposer.ReplaceKeepsIds` | src/components/TemplateComposer.tsx:70-81 | replacing with a template carrying the edited id keeps every position's id |
| `TemplateComposer.RemoveById` | src/components/TemplateComposer.tsx:105-106 | no survivor has the id, every other entry survives, and an unknown id changes nothing |
| `TemplateComposer.RemoveByIdDistributes` | src/components/TemplateComposer.tsx:106 | removal keeps the survivors in their original order |
| `TemplateComposer.RemoveByIdIdempotent` | src/components/TemplateComposer.tsx:105-106 | deleting twice is deleting once |
| `TemplateComposer.PreviewOf` | src/components/TemplateComposer.tsx:113-169 | no preview without a body; otherwise the body rendered; a header exactly when the draft has one, a text header rendered and a media header shown as `Media Header`; a footer exactly when the draft has a non-empty one, rendered; the button labels in order |
| `TemplateComposer.PreviewWithoutBindings` | src/components/TemplateComposer.tsx:124-153 | without bindings the preview shows the body, a text header and the footer as typed |
| `TemplateComposer.TemplateEditor.constructor` | src/components/TemplateComposer.tsx:32-39 | no templates, the empty draft with category marketing, nothing under edit |
| `TemplateComposer.TemplateEditor.EditName` | src/components/TemplateComposer.tsx:192 | only the draft's name changes |
| `TemplateComposer.TemplateEditor.EditCategory` | src/components/TemplateComposer.tsx:201 | only the draft's category changes |
| `TemplateComposer.TemplateEditor.EditHeader` | src/components/TemplateComposer.tsx:222-226 | the draft gets a text header; variables, templates and `editingId` are untouched |
| `TemplateComposer.TemplateEditor.EditBody` | src/components/TemplateComposer.tsx:239-242 | the draft becomes `WithBody` of the old draft; nothing else changes |
| `TemplateComposer.TemplateEditor.EditFooter` | src/components/TemplateComposer.tsx:254-257 | the draft becomes `WithFooter` of the old draft; nothing else changes |
| `TemplateComposer.TemplateEditor.Save` | src/components/TemplateComposer.tsx:59-98 | refused (nothing changes) exactly when name or body is empty; otherwise appends a new template, or replaces the edited one in place under its id, then clears `editingId` and resets the draft |
| `TemplateComposer.TemplateEditor.Edit` | src/components/TemplateComposer.tsx:100-103 | the draft becomes the template and `editingId` its id; the list is untouched |
| `TemplateComposer.TemplateEditor.Delete` | src/components/TemplateComposer.tsx:105-111 | the list loses exactly the entries with that id; draft and `editingId` are untouched |
| `ContactManager.Lookup` | src/components/ContactManager.tsx:94 | a key is absent exactly when no pair has it; a found value belongs to a pair with that key |
| `ContactManager.Put` | src/components/ContactManager.tsx:56 | after the assignment the key holds the new value |
| `ContactManager.PutOther` | src/components/ContactManager.tsx:56 | assigning one key leaves every other key's value alone |
| `ContactManager.PutKeys` | src/components/ContactManager.tsx:56 | an existing key keeps its place; a new key goes last |
| `ContactManager.TrimAllAt` | src/components/ContactManager.tsx:40 | `.map(v => v.trim())` keeps the length and trims each cell |
| `ContactManager.RowVarsKeys` | src/components/ContactManager.tsx:53-58 | a row's keys are exactly the headers of columns 2 onwards where header and cell are both non-empty, each once |
| `ContactManager.RowVarsNonEmpty` | src/components/ContactManager.tsx:55-56 | no variable is stored with an empty value |
| `ContactManager.RowVarsLastWins` | src/components/ContactManager.tsx:54-57 | under a repeated header the last filled column's value is kept |
| `ContactManager.DecodeRowFields` | src/components/ContactManager.tsx:45-58 | a decoded line carries its line number in its id, a trimmed phone and name, variables only under non-empty headers of columns 2 onwards, and no empty value |
| `ContactManager.NonBlankLinesSpec` | src/components/ContactManager.tsx:43-44 | the decoded lines are the non-blank lines after line 0, in increasing order, none missed |
| `ContactManager.Decoded` | src/components/ContactManager.tsx:39-62 | at most one contact per line after the header line |
| `ContactManager.DecodedSound` | src/components/ContactManager.tsx:39-62 | each contact is its own non-blank line decoded (phone cell 0, name cell 1, variables from the rest, line number in the id), in line order |
| `ContactManager.RowsOfIds` | src/components/ContactManager.tsx:43-60 | contacts decoded from increasing non-blank line numbers carry those numbers, in the same order |
| `ContactManager.DecodedComplete` | src/components/ContactManager.tsx:43-62 | every non-blank line after the header yields a contact |
| `ContactManager.DecodeHeaderOnly` | src/components/ContactManager.tsx:39-43 | a text with no line break (header only, or empty) yields no contact |
| `ContactManager.CollectVars` | src/components/ContactManager.tsx:54-58 | the inner loop computes the row's variables |
| `ContactManager.DecodeLine` | src/components/ContactManager.tsx:45-60 | the loop body builds the contact of its line |
| `ContactManager.DecodeNextLine` | src/components/ContactManager.tsx:43-61 | a non-blank line appends its contact to those of the earlier lines |
| `ContactManager.DecodeBody` | src/components/ContactManager.tsx:43-62 | the outer loop yields one contact per non-blank line, in order |
| `ContactManager.Decode` | src/components/ContactManager.tsx:37-62 | the handler's result is the decoded list of the file's text |
| `ContactManager.AllKeys` | src/components/ContactManager.tsx:85 | the flat key list holds exactly the keys of all contacts |
| `ContactManager.VariableKeys` | src/components/ContactManager.tsx:84-86 | the export's key columns have no duplicates, hold every contact's keys and nothing else, in first-seen order |
| `ContactManager.EncodeRowAt` | src/components/ContactManager.tsx:91-95 | a row has as many cells as the header: phone, name, then each key's value or `''` |
| `ContactManager.EncodeRows` | src/components/ContactManager.tsx:91-95 | one row per contact, in order |
| `ContactManager.Encode` | src/components/ContactManager.tsx:84-96 | the exported text opens with the header row `Phone Number,Name` followed by the variable keys; `EncodedLines` gives its lines |
| `ContactManager.ExportText` | src/components/ContactManager.tsx:74-96 | export is refused exactly when the list is empty |
| `ContactManager.Matches` | src/components/ContactManager.tsx:107-110 | a contact matches when the lower-cased term occurs at some position of the lower-cased name or the term occurs at some position of the phone; the empty term matches every contact |
| `ContactManager.FilterContacts` | src/components/ContactManager.tsx:107-110 | the shown contacts are those whose lower-cased name contains the lower-cased term or whose phone contains the term |
| `ContactManager.FilterDistributes` | src/components/ContactManager.tsx:107 | filtering keeps the list order |
| `ContactManager.FilterEmptyTerm` | src/components/ContactManager.tsx:107-110 | an empty term shows every contact |
| `ContactManager.CountValidNumbers` | src/components/ContactManager.tsx:162 | at most the list length, and equal to it exactly when every phone has more than 8 characters |
| `ContactManager.CountWithNames` | src/components/ContactManager.tsx:168 | at most the list length, and equal to it exactly when every contact has a name |
| `ContactManager.CountsAdd` | src/components/ContactManager.tsx:157-168 | the counts of an appended list are the sums of the parts' counts |
| `ContactManager.ContactBook.constructor` | src/components/ContactManager.tsx:19-20 | an empty list and an empty search term |
| `ContactManager.ContactBook.Import` | src/components/ContactManager.tsx:64 | the file's contacts are appended after the existing ones |
| `ContactManager.ContactBook.ClearAll` | src/components/ContactManager.tsx:189 | the list becomes empty |
| `ContactManager.ContactBook.Search` | src/components/ContactManager.tsx:212 | only the search term changes |
| `ContactManager.ContactBook.Visible` | src/components/ContactManager.tsx:107-110 | the shown list holds exactly the contacts matching the term |
| `ContactManager.ContactBook.Export` | src/components/ContactManager.tsx:74-96 | the export of the current list, refused when it is empty |
| `ContactRoundTrip.CellsOfPlainRow` | src/components/ContactManager.tsx:45 | cells without comma, line break or surrounding blanks are read back unchanged from their joined row |
| `ContactRoundTrip.EncodedLines` | src/components/ContactManager.tsx:88-96 | the exported text splits into the header row and one row per contact, none blank |
| `ContactRoundTrip.BindingOfEncoded` | src/components/ContactManager.tsx:54-58 | each key is bound after import exactly as the contact bound it |
| `ContactRoundTrip.DecodeRowOfEncoded` | src/components/ContactManager.tsx:45-58 | an exported row decodes to the same phone, name and bindings |
| `ContactRoundTrip.DecodeEncode` | src/components/ContactManager.tsx:39-96 | importing an export of plain contacts gives one contact per row, in order, with the same phone, name and variable bindings |
| `CampaignManager.SeededStatistics` | src/components/CampaignManager.tsx:28-53 | the seeded campaigns have consistent counters, one is running and 1700 messages were sent |
| `CampaignManager.NewCampaign` | src/components/CampaignManager.tsx:99-111 | status is scheduled exactly when a date was given, otherwise draft; all four counters are 0; template name `"Sample Template"` |
| `CampaignManager.Toggled` | src/components/CampaignManager.tsx:125 | running goes to paused; every other status goes to running; the status always changes |
| `CampaignManager.ToggledTwice` | src/components/CampaignManager.tsx:125 | toggling twice restores the status exactly when it was running or paused |
| `CampaignManager.ToggleById` | src/components/CampaignManager.tsx:122-130 | only the status of campaigns with that id changes; every other campaign and field is unchanged |
| `CampaignManager.ToggleUnknownId` | src/components/CampaignManager.tsx:122-130 | an unknown id is a no-op |
| `CampaignManager.ToggleTwice` | src/components/CampaignManager.tsx:122-130 | toggling an id twice restores the list when its campaigns are running or paused |
| `CampaignManager.ToggleKeepsCounters` | src/components/CampaignManager.tsx:122-130 | toggling keeps the counter invariants and every pending count |
| `CampaignManager.ActiveCount` | src/components/CampaignManager.tsx:195 | the number of running campaigns is at most the number of campaigns |
| `CampaignManager.TotalMessages` | src/components/CampaignManager.tsx:196 | with consistent counters the total of messages sent is not negative; `StatisticsAppend` and `ToggleStatistics` give its value under creation and toggling |
| `CampaignManager.Pending` | src/components/CampaignManager.tsx:286 | with consistent counters the pending count lies between 0 and the total |
| `CampaignManager.StatisticsAppend` | src/components/CampaignManager.tsx:194-196 | appending a campaign adds its running flag to the active count and its sent count to the total messages |
| `CampaignManager.CreateKeepsStatistics` | src/components/CampaignManager.tsx:113 | creating adds one campaign and changes neither the active count nor the total messages |
| `CampaignManager.ToggleStatistics` | src/components/CampaignManager.tsx:195 | toggling an id stops its running campaigns and starts its others; total messages do not move |
| `CampaignManager.CampaignLedger.constructor` | src/components/CampaignManager.tsx:28-59 | the seeded list, with consistent counters, and an empty form |
| `CampaignManager.CampaignLedger.EditName` | src/components/CampaignManager.tsx:152 | only the form's name changes |
| `CampaignManager.CampaignLedger.SelectTemplate` | src/components/CampaignManager.tsx:161 | only the form's template id changes |
| `CampaignManager.CampaignLedger.EditSchedule` | src/components/CampaignManager.tsx:179 | only the form's date changes |
| `CampaignManager.CampaignLedger.Create` | src/components/CampaignManager.tsx:89-120 | refused (nothing changes) exactly when the name or template id is empty; otherwise appends the new campaign last and clears the form; the counter invariant is kept |
| `CampaignManager.CampaignLedger.Toggle` | src/components/CampaignManager.tsx:122-130 | the list becomes its toggle by id; the counter invariant is kept |

## Left out

- JSX markup, styling lookups (`getStatusColor`, `getStatusIcon`), cards, badges and the show-preview flag. They are presentation only.
- Toast notifications. A refusal is modelled as unchanged state and a `false` result (or `None` for export).
- Browser file I/O:
  - the `FileReader`, the missing-file return and the `text/csv` type check (`ContactManager.tsx:23-36, 71`);
  - the Blob/URL/anchor download (`ContactManager.tsx:98-104`).
  - Decoding takes the file's text; encoding returns the text.
- `Date.now()` and `new Date().toISOString()`. They are parameters; two ids drawn at the same instant are not modelled.
- The 100 ms delay of the scheduled `updateVariables`. Its stale-closure effect is kept (see above). Interleavings in which a later render's callback fires first are not modelled.
- The progress bar percentage, `toLocaleString` and the literal `"94.2%"`. These are floating point and locale output.
- Unicode details. `trim` and `toLowerCase` are modelled on ASCII whitespace and ASCII letters only.
- The hard-coded lists:
  - the category options (`TemplateComposer.tsx:207-210`);
  - the template options (`CampaignManager.tsx:167-169`);
  - the preview's sample bindings (`TemplateComposer.tsx:116-122`), which are a parameter.
- JavaScript object details of a contact's `variables`:
  - integer-like keys, which an object lists before the other keys;
  - keys such as `__proto__` that collide with the prototype.
  - The model keeps plain insertion order.
- `TemplateVariables.Render`: the preview's sample bindings are a plain object, so a token such as `{{constructor}}`, `{{toString}}` or `{{__proto__}}` finds an inherited `Object.prototype` member and is replaced by its string form; the model's bindings are a map without inherited entries, so such a token is copied unchanged unless bound.
- Campaign delivery counters are JavaScript numbers; the model keeps them as unbounded integers, so precision loss above 2^53 is not modelled.
- The header input is displayed but never switches a header to media. A media header arrives only through `editTemplate` of a stored template, which is modelled.
- `ContactRoundTrip.DecodeEncode`:
  - it states the round trip for contacts whose cells hold no comma, no line break and no surrounding whitespace, and whose variables have non-empty keys and values;
  - other contacts do not survive the unquoted format;
  - it restores the bindings, not the order of keys inside a contact's `variables`;
  - the import gives new ids.
- The `Dashboard.tsx` literal statistics and the `Index.tsx` tab navigation. They hold no logic.
