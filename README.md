# ALTO ID generation step

A model of the Goobi workflow step plugin that fills in missing `ID` attributes in the OCR results of a process. OCR results are ALTO XML files.

One run of the step does the following:

1. It lists the ALTO files of the process.
2. It scans the files in order. It stops at the first file in which some text block, text line or word (`String`) lacks an `ID` attribute.
3. If it finds one, it backs up the OCR directory and rewrites every file. Each file is rewritten role by role, in the order blocks, lines, words.
4. Each role gets a fresh generator of candidate IDs: `TextBlock_1, TextBlock_2, …` (or `TextLine_…`, `TextWord_…`).
5. Each element without an ID receives, in document order, the first candidate not already used by an element of that role in that file.
6. Any `SwapException`, `IOException` or `JDOMException` ends the run. It writes an error entry to the process journal and makes the step return `ERROR`.

Modules:

- `Wrappers`: `Option` and `Result`.
- `Decimal`: decimal rendering of the generator's counter, and its injectivity.
- `AltoXml`: the parsed document as a tree, paths to elements, and the three XPath selectors as a recursive selection in document order. It also proves what the selectors select, that the selection is in document order, and that it does not depend on namespaces or attributes.
- `IdGeneration`:
  - the `IdGenerator` class;
  - the ID pass over the elements of one role, as an in-place method on an array of attribute maps;
  - the specification the pass is proved against (a left fold, `Fill`) and the properties of that specification.
- `AltoDocument`: the check for missing IDs in one document, and the three passes over a document, which give `FilledDocument`.
- `StepPlugin`:
  - the read-only scan over the files;
  - the rewrite pass over the files;
  - `run` and `execute`, with the file system, the backup and the journal as parameters and as a trace of events.

## Model

| member | source | states |
|---|---|---|
| AltoXml.SelectMatches | module-base/src/main/java/de/intranda/goobi/plugins/GenerateAltoIdsStepPlugin.java:92-94 | A path is selected for a role exactly when it leads to an element with the role's local name. For a line the parent's local name must also be TextBlock; for a word, TextLine. |
| AltoXml.SelectSorted | module-base/src/main/java/de/intranda/goobi/plugins/GenerateAltoIdsStepPlugin.java:92-94 | The selected paths come in document (preorder) order, so each element is selected once. |
| AltoXml.SelectIgnoresNamespace | module-base/src/main/java/de/intranda/goobi/plugins/GenerateAltoIdsStepPlugin.java:92-94 | The selectors compare `local-name()` only: moving every element to another namespace selects the same paths. |
| AltoXml.WordUnderStrayLine | module-base/src/main/java/de/intranda/goobi/plugins/GenerateAltoIdsStepPlugin.java:93-94 | A String under a TextLine that is not inside a TextBlock is selected as a word, although its TextLine is not selected as a line. |
| AltoXml.RolesDisjoint | module-base/src/main/java/de/intranda/goobi/plugins/GenerateAltoIdsStepPlugin.java:92-94 | No element is selected for two roles. |
| AltoXml.SelectSkeleton | module-base/src/main/java/de/intranda/goobi/plugins/GenerateAltoIdsStepPlugin.java:92-94 | The selection does not depend on attributes, so setting IDs does not change what a later selector returns. |
| AltoXml.SetAttributesAt | module-base/src/main/java/de/intranda/goobi/plugins/GenerateAltoIdsStepPlugin.java:263 | Setting the attributes of one element changes what is read there and nowhere else. |
| AltoXml.WriteBackAttributes | module-base/src/main/java/de/intranda/goobi/plugins/GenerateAltoIdsStepPlugin.java:256-265 | Writing the selected elements' new attributes into the tree places each value at its element, leaves every other element's attributes alone, and keeps names, order and text. |
| Decimal.NatToStringInjective | module-base/src/main/java/de/intranda/goobi/plugins/GenerateAltoIdsStepPlugin.java:245 | Different counter values print as different decimal strings. |
| Decimal.NatToStringLength | module-base/src/main/java/de/intranda/goobi/plugins/GenerateAltoIdsStepPlugin.java:245 | A counter of at least 10^k prints with more than k digits. |
| IdGeneration.IdForInjective | module-base/src/main/java/de/intranda/goobi/plugins/GenerateAltoIdsStepPlugin.java:245 | With one prefix, different counter values give different IDs. |
| IdGeneration.IdGenerator.constructor | module-base/src/main/java/de/intranda/goobi/plugins/GenerateAltoIdsStepPlugin.java:237-243 | A new generator holds its prefix and the counter 1. |
| IdGeneration.IdGenerator.Generate | module-base/src/main/java/de/intranda/goobi/plugins/GenerateAltoIdsStepPlugin.java:244-246 | Returns the prefix followed by the counter in decimal, and increments the counter, whether or not the ID is in use. |
| IdGeneration.FreshGeneratorSequence | module-base/src/main/java/de/intranda/goobi/plugins/GenerateAltoIdsStepPlugin.java:237-246 | A fresh generator yields prefix1, prefix2, prefix3. |
| IdGeneration.FirstFree | module-base/src/main/java/de/intranda/goobi/plugins/GenerateAltoIdsStepPlugin.java:258-261 | The draw loop started at counter c stops at the least n ≥ c whose ID is unused. Every counter it skips gives a used ID. |
| IdGeneration.UsedBelowBound | module-base/src/main/java/de/intranda/goobi/plugins/GenerateAltoIdsStepPlugin.java:258-261 | Only counters below 10^(longest used ID) can collide, so the draw loop terminates. |
| IdGeneration.DrawUnused | module-base/src/main/java/de/intranda/goobi/plugins/GenerateAltoIdsStepPlugin.java:258-261 | The do-while draws until the draw is unused. It returns the ID of FirstFree, and the generator is left just past it. |
| IdGeneration.GenerateIdsForElementType | module-base/src/main/java/de/intranda/goobi/plugins/GenerateAltoIdsStepPlugin.java:249-266 | The elements after the pass, and the generator's counter, are those of the specification `Fill` of the original elements. |
| IdGeneration.FillFromAssigned | module-base/src/main/java/de/intranda/goobi/plugins/GenerateAltoIdsStepPlugin.java:250-265 | The invariant of the pass: elements with an ID are kept. The others gain increasing, unused counters, none of which skips an unused ID. The used set is the original IDs plus the new ones. |
| IdGeneration.FillKeepsExisting | module-base/src/main/java/de/intranda/goobi/plugins/GenerateAltoIdsStepPlugin.java:256-257 | The pass keeps the length of the list, and an element that has an ID keeps all its attributes. |
| IdGeneration.FillAssignsMissing | module-base/src/main/java/de/intranda/goobi/plugins/GenerateAltoIdsStepPlugin.java:257-263 | An element without an ID gains `ID = prefix + n` for some n ≥ the start counter. Its other attributes stay. The n are strictly increasing in document order. |
| IdGeneration.FillComplete | module-base/src/main/java/de/intranda/goobi/plugins/GenerateAltoIdsStepPlugin.java:256-265 | After the pass every element has an ID. |
| IdGeneration.FillUnique | module-base/src/main/java/de/intranda/goobi/plugins/GenerateAltoIdsStepPlugin.java:250-262 | A new ID was not in use before the pass and differs from the ID of every other element of the role. |
| IdGeneration.FillSkipsOnlyUsed | module-base/src/main/java/de/intranda/goobi/plugins/GenerateAltoIdsStepPlugin.java:259-262 | Every counter value the pass passes over gives an ID that was in use before or that the pass assigned. |
| IdGeneration.FillFromNoGaps | module-base/src/main/java/de/intranda/goobi/plugins/GenerateAltoIdsStepPlugin.java:256-257 | Elements that all have IDs are left as they are, and no candidate is drawn. |
| IdGeneration.FillIdempotent | module-base/src/main/java/de/intranda/goobi/plugins/GenerateAltoIdsStepPlugin.java:249-266 | A second pass over the result changes nothing, whatever its start counter. |
| IdGeneration.ScenarioFreshBlocks | module-base/src/main/java/de/intranda/goobi/plugins/GenerateAltoIdsStepPlugin.java:249-266 | Blocks with ID B_1, without, without: they receive TextBlock_1 and then TextBlock_2. |
| IdGeneration.ScenarioSkipTaken | module-base/src/main/java/de/intranda/goobi/plugins/GenerateAltoIdsStepPlugin.java:258-261 | Blocks with ID TextBlock_1, then without: the draw TextBlock_1 is skipped, and the second block gets TextBlock_2. |
| AltoDocument.AnyLacksId | module-base/src/main/java/de/intranda/goobi/plugins/GenerateAltoIdsStepPlugin.java:211-213 | True exactly when some element of the list has no ID attribute. |
| AltoDocument.RoleLacksId | module-base/src/main/java/de/intranda/goobi/plugins/GenerateAltoIdsStepPlugin.java:195-205 | The anyMatch over one selector's elements holds exactly when some selected path has no ID. |
| AltoDocument.AltoFileHasMissingIds | module-base/src/main/java/de/intranda/goobi/plugins/GenerateAltoIdsStepPlugin.java:192-209 | True exactly when some selected block, line or word lacks an ID. |
| AltoDocument.SelectionDistinct | module-base/src/main/java/de/intranda/goobi/plugins/GenerateAltoIdsStepPlugin.java:92-94 | A selector never returns the same element twice. |
| AltoDocument.FillRoleEffect | module-base/src/main/java/de/intranda/goobi/plugins/GenerateAltoIdsStepPlugin.java:230-232 | One role's pass gives that role's elements the attributes `Fill` computes. It leaves the other roles and every untracked element as they were. It changes no name, order or text, and no selection. |
| AltoDocument.FillRoleNoGaps | module-base/src/main/java/de/intranda/goobi/plugins/GenerateAltoIdsStepPlugin.java:256-257 | A role pass over a role with no gaps returns the tree unchanged. |
| AltoDocument.GenerateIdsForRole | module-base/src/main/java/de/intranda/goobi/plugins/GenerateAltoIdsStepPlugin.java:230-232 | Selecting a role, running the pass with a fresh generator and writing back yields `FillRole`. |
| AltoDocument.GenerateMissingIdsInDocument | module-base/src/main/java/de/intranda/goobi/plugins/GenerateAltoIdsStepPlugin.java:227-233 | Blocks, then lines, then words: the result is `FilledDocument`. |
| AltoDocument.FilledDocumentRoles | module-base/src/main/java/de/intranda/goobi/plugins/GenerateAltoIdsStepPlugin.java:227-233 | In the filled document, each role's elements hold what a pass over that role of the original computes. Each role selects the same paths as before. |
| AltoDocument.FilledDocumentSkeleton | module-base/src/main/java/de/intranda/goobi/plugins/GenerateAltoIdsStepPlugin.java:227-234 | Filling changes attributes only: element names, namespace prefixes, order and text stay. |
| AltoDocument.FilledDocumentUntracked | module-base/src/main/java/de/intranda/goobi/plugins/GenerateAltoIdsStepPlugin.java:227-233 | An element that is not a selected block, line or word keeps its attributes. |
| AltoDocument.FilledDocumentComplete | module-base/src/test/java/de/intranda/goobi/plugins/GenerateAltoIdsPluginTest.java:170-176 | After filling, no block, line or word lacks an ID. |
| AltoDocument.FilledDocumentNoGaps | module-base/src/main/java/de/intranda/goobi/plugins/GenerateAltoIdsStepPlugin.java:227-233 | A document without gaps is left exactly as it is. |
| AltoDocument.FilledDocumentIdempotent | module-base/src/main/java/de/intranda/goobi/plugins/GenerateAltoIdsStepPlugin.java:227-233 | Filling a filled document changes nothing. |
| StepPlugin.ScanDecidedByFirstUnclean | module-base/src/main/java/de/intranda/goobi/plugins/GenerateAltoIdsStepPlugin.java:183-190 | The scan's outcome is decided by the first file that does not parse or has a gap. With no such file (in particular with no files) the result is false. Later files are not read. |
| StepPlugin.AnyAltoFileHasMissingIds | module-base/src/main/java/de/intranda/goobi/plugins/GenerateAltoIdsStepPlugin.java:183-190 | The loop with early return computes the scan `MissingIdsScan`. |
| StepPlugin.GenerateMissingAltoIdsInFile | module-base/src/main/java/de/intranda/goobi/plugins/GenerateAltoIdsStepPlugin.java:227-235 | Re-parses the file, fills it and writes it. A parse error gives JDOMException, and an unreadable or unwritable file gives IOException. |
| StepPlugin.GenerateMissingAltoIds | module-base/src/main/java/de/intranda/goobi/plugins/GenerateAltoIdsStepPlugin.java:221-225 | The loop over the files computes `RewritePass`. |
| StepPlugin.RewritePassMeaning | module-base/src/main/java/de/intranda/goobi/plugins/GenerateAltoIdsStepPlugin.java:221-225 | Files are written in order up to the first one that fails. Writes already made stay, and no later file is touched. Without a failure every file is written. |
| StepPlugin.Run | module-base/src/main/java/de/intranda/goobi/plugins/GenerateAltoIdsStepPlugin.java:141-164 | Returns ERROR exactly when an exception reaches the catch block, and exactly when the trace ends in a journal entry. With no gaps there is no backup and no write. A failed listing, scan or backup gives only the journal entry. Otherwise the trace is the backup, then the rewrite pass, then the journal entry if the pass failed. The backup precedes every write and happens at most once. |
| StepPlugin.Execute | module-base/src/main/java/de/intranda/goobi/plugins/GenerateAltoIdsStepPlugin.java:135-138 | Reports success exactly when run does not fail. |
| StepPlugin.SecondRunFindsNothing | module-base/src/test/java/de/intranda/goobi/plugins/GenerateAltoIdsPluginTest.java:170-176 | After a rewrite pass without failure, the scan finds no file with a gap, so a second run neither backs up nor writes. |

## Left out

- XML parsing and serialisation (SAXBuilder, XMLOutputter, pretty printing). A file arrives as what parsing it yields: a tree, not well-formed, or unreadable. A write is an event carrying the new tree.
- The XPath engine. The three compiled expressions (lines 92-94) are modelled by a recursive selection with the same meaning.
- The storage provider, the OCR directory lookup and `BackupFileManager`. The outcome of listing the ALTO folder and the exception the backup throws are parameters of `StepPlugin.Run`. The backup is an event.
- The process journal. An entry is an event carrying the exception; the message text is not modelled.
- Logging, and the lifecycle and UI methods of the plugin (`initialize`, `getPluginGuiType`, `getPagePath`, `getType`, `cancel`, `finish`, `getInterfaceVersion`, `validate`), which compute nothing about IDs.
- IdGeneration.IdGenerator.Generate: the counter is a Java `long`. The model uses an unbounded `nat` and does not model wrap-around past 2^63 - 1, which needs more draws than any document has elements.
- Attributes in a namespace. `getAttribute("ID")` reads the no-namespace attribute, and the model's attribute map holds exactly those.
- JDOM elements are updated in place through the live result list of the selector. The model copies the selected elements' attribute maps into an array, runs the pass on the array in place, and writes the array back into the tree at the selected paths. Aliasing between the list and the document is not modelled. `AltoXml.WriteBackAttributes` shows the write-back has exactly the effect of the in-place update.
- The do-while of lines 259-261 is the separate method `IdGeneration.DrawUnused`.
- The three prefixes are fixed in the plugin (lines 87-89, `AltoDocument.DefaultPrefixes`). Here they are a parameter, so every result holds for any prefixes, including the fixed ones.
- IDs are unique within one role of one document, not across roles. With two roles given the same prefix, a block and a line can receive the same ID; the plugin does not guard against that either.
- A line must be a child of an element named TextBlock, and a word a child of an element named TextLine. The word selector does not require that TextLine to be a selected line, so a String under a stray TextLine is still a word (`AltoXml.WordUnderStrayLine`). The model follows the code.
- A file whose rewrite fails keeps its old content: an exception before `saveAltoFile` leaves it untouched. The model does not represent partly written files.
