# ModMenu, modelled in Dafny

ModMenu lets independently compiled mods of a host game put their own ImGui submenu under one
shared "Mods" menu. Its core, `ModMenu/ModMenuPatcher.cs`, does three things, all modelled here:

- **Splice injection** (`Transpiler`): Harmony hands it the IL of the host's `DrawMenuBar`. It scans
  the IL from the end for a `call`/`callvirt` to `ImGui.EndMenu` and inserts a call to
  `InjectModMenu` four slots after the first one it meets. When there is none, the IL is returned
  as it was and `MenuInjectionFailed` is set, so that the backup window is drawn instead.
- **Discovery** (`Initialize`): once per process (the `Initialized` latch) it walks every loaded
  assembly except the runtime ones (names starting with `System`, `Microsoft`, `netstandard`,
  `mscorlib`), every type and every method. A method is registered if it carries an attribute
  whose type is named `ModMenuEntryAttribute` (its `MenuName` is the label). Otherwise it is
  registered if it is a public static `CreateModMenu` or `DrawModMenu`, labelled with its type's
  name minus every `Mod` and then every `Menu`, trimmed, falling back to the type name.
  Null or empty labels register nothing. An exception while handling a method ends that type
  and keeps what the type already added. The pass ends by sorting the registry.
- **Registry** (`Mods`, `AddToModMenu`): a list of `ModEntry(name, callback)`. Every change
  appends and then sorts the whole list with the case-insensitive ordinal comparer.

Files, one module each:

- `wrappers.dfy` (`Wrappers`): `Option` and `Result`.
- `ignore_case.dfy` (`IgnoreCase`): `string.Compare(…, OrdinalIgnoreCase)`. Names are upper-cased,
  then compared by code point. It is proved to be a total preorder.
- `menu_label.dfy` (`MenuLabel`): `Replace(…, "")`, `Trim` and the naming-convention label.
- `registry.dfy` (`Registry`): `ModEntry`, sortedness, and the sort used by the registry.
- `splice.dfy` (`SpliceInjector`): instructions, the anchor search and the insertion.
- `discovery.dfy` (`Discovery`): reflection replaced by assembly, type and method records; the
  rules as functions, and the scan as loops proved against them.
- `patcher.dfy` (`Patcher`): class `ModMenuPatcher`. It holds the process-wide state
  (`initialized`, `mods`, and `menuInjectionFailed`, which the source keeps on the `ModMenu` class,
  `ModMenu/ModMenu.cs:13`). It also holds the three operations that change that state.

Reflection is replaced by plain data, and its exceptions by oracle flags on the records:

- `AssemblyInfo.typesThrow`: `GetTypes` throws, so the assembly-level catch skips the assembly.
- `MethodInfo.attributesThrow`: `GetCustomAttributes` throws.
- `MethodInfo.bindThrows`: `Delegate.CreateDelegate` or `Activator.CreateInstance` throws.
- A callback is an opaque `CallbackId`.

Three points of the code that the model follows exactly:

- An attribute with an empty `MenuName` registers nothing. The `IsNullOrEmpty` test at line 148
  covers both rules.
- The registry is sorted with `List<T>.Sort` (lines 181 and 197), which is not stable. So the
  model promises only "sorted and a permutation", and leaves the order of names that compare
  equal open.
- An exception while handling a method ends its whole type. The catch at line 168 sits outside
  the method loop, so the later methods of that type are not scanned. The entries already added
  stay.

## Model

| member | source | states |
|---|---|---|
| `IgnoreCase.CompareOrdinal` | ModMenu/ModMenuPatcher.cs:181 | the ordinal comparison returns -1, 0 or 1, and 0 exactly when the two strings are equal |
| `IgnoreCase.OrdinalAntisymmetric` | ModMenu/ModMenuPatcher.cs:181 | swapping the arguments negates the ordinal comparison |
| `IgnoreCase.OrdinalTransitive` | ModMenu/ModMenuPatcher.cs:181 | the ordinal "sorts no later than" relation is transitive |
| `IgnoreCase.CompareIgnoreCase` | ModMenu/ModMenuPatcher.cs:181 | the comparer handed to `List.Sort` returns -1, 0 or 1, and 0 exactly when the two names agree once upper-cased |
| `IgnoreCase.IgnoreCaseTotal` | ModMenu/ModMenuPatcher.cs:197 | the case-insensitive comparer is antisymmetric and orders every pair of names one way or the other |
| `IgnoreCase.IgnoreCaseTransitive` | ModMenu/ModMenuPatcher.cs:197 | the case-insensitive comparer is transitive, so it is a total preorder that `List.Sort` can use |
| `MenuLabel.RemoveAll` | ModMenu/ModMenuPatcher.cs:142 | `Replace(pat, "")` is one left-to-right pass that drops non-overlapping copies of `pat`; its result is never longer than its input |
| `MenuLabel.Trim` | ModMenu/ModMenuPatcher.cs:142 | `Trim()` drops leading and then trailing `char.IsWhiteSpace` characters; its result is never longer than its input |
| `MenuLabel.ConventionLabel` | ModMenu/ModMenuPatcher.cs:140-144 | the label is the type name minus every `Mod`, then every `Menu`, then trimmed, or the type name when that is empty; it is never longer than the type name and is empty exactly when the type name is |
| `MenuLabel.RemoveAllUnchangedIff` | ModMenu/ModMenuPatcher.cs:142 | `Replace(pat, "")` never lengthens a string and leaves it unchanged exactly when `pat` does not occur in it |
| `MenuLabel.RemoveAllRemovesWholeCopies` | ModMenu/ModMenuPatcher.cs:142 | `Replace(pat, "")` shortens a string by a whole number of copies of `pat` |
| `MenuLabel.TrimNoEdgeWhiteSpace` | ModMenu/ModMenuPatcher.cs:142 | `Trim` leaves no white space at either end |
| `MenuLabel.TrimIsSlice` | ModMenu/ModMenuPatcher.cs:142 | `Trim` returns a contiguous slice of its input and everything cut away is white space |
| `MenuLabel.TrimIdempotent` | ModMenu/ModMenuPatcher.cs:142 | trimming twice is trimming once |
| `MenuLabel.ConventionLabelShape` | ModMenu/ModMenuPatcher.cs:140-144 | the label is empty exactly when the type name is; otherwise it is the type name itself or a non-empty string with no white space at its ends |
| `MenuLabel.PlainTypeNameKept` | ModMenu/ModMenuPatcher.cs:140-144 | a type name without `Mod`, without `Menu` and without white space at its ends is its own label |
| `MenuLabel.ExampleModMenuLabel` | ModMenu/ModMenuPatcher.cs:140-144 | `ExampleModMenu` is labelled `Example` |
| `MenuLabel.SpacedNameLabel` | ModMenu/ModMenuPatcher.cs:142 | `Example ModMenu` is labelled `Example`: the space left behind is trimmed |
| `MenuLabel.FallbackLabels` | ModMenu/ModMenuPatcher.cs:143-144 | `Mod` and `ModMenu` strip to nothing and fall back to the type name |
| `MenuLabel.RejoinedModStays` | ModMenu/ModMenuPatcher.cs:142 | `Replace` is one pass: `MModod` becomes `Mod`, which stays as the label |
| `MenuLabel.RejoinedMenuRemoved` | ModMenu/ModMenuPatcher.cs:142 | the replacements run in order: removing `Mod` from `XMenModu` forms `Menu`, which the second replacement removes, giving `X` |
| `Registry.ModEntry` | ModMenu/ModMenuPatcher.cs:33-43 | an entry pairs the menu name with the callback that draws the mod's submenu; both are fixed when it is built |
| `Registry.SortByName` | ModMenu/ModMenuPatcher.cs:181 | `Mods.Sort` with the case-insensitive comparer leaves the list sorted by name and a permutation of what it was |
| `Registry.SortedOrderDetermined` | ModMenu/ModMenuPatcher.cs:197 | any two sorted arrangements of the same entries agree position by position on the names up to case: only the order among case-equal names is left open |
| `SpliceInjector.IsAnchor` | ModMenu/ModMenuPatcher.cs:62-64 | an anchor is a `call` or `callvirt` whose operand is `ImGui.EndMenu`; any other opcode or operand is not |
| `SpliceInjector.Splice` | ModMenu/ModMenuPatcher.cs:60-85 | there is no anchor exactly when no instruction is an anchor. With a last anchor, the IL is injected exactly when that anchor has four slots of room after it. The `InjectModMenu` call then goes in four slots after the last anchor and nowhere else; with `InsertAtShape`, the IL gains exactly that one call and keeps everything else in order. Otherwise the outcome is out of range, at index last anchor + 4, which lies past the end |
| `SpliceInjector.LastAnchor` | ModMenu/ModMenuPatcher.cs:60-68 | finds the largest index of a `call`/`callvirt` to `EndMenu`; no later instruction is one, and the result is None exactly when there is none |
| `SpliceInjector.SpliceInstructions` | ModMenu/ModMenuPatcher.cs:52-76 | the reverse scan with its `endMenuCount` counter gives the splice outcome: inserted after the last anchor, no anchor, or `List.Insert` out of range |
| `SpliceInjector.InsertAtShape` | ModMenu/ModMenuPatcher.cs:70 | `List.Insert(k, x)` makes the list one longer and puts `x` at `k`; taking it out gives the old list back, order included, and the multiset gains exactly `x` |
| `SpliceInjector.EarlierAnchorsIgnored` | ModMenu/ModMenuPatcher.cs:66-73 | whatever precedes a stretch holding an anchor, including more `EndMenu` calls, does not move the splice point: only the last anchor is used |
| `SpliceInjector.NonAnchorsIgnored` | ModMenu/ModMenuPatcher.cs:62-64 | overwriting a non-anchor instruction with another non-anchor (another opcode on `EndMenu`, or a call to another method) does not change the anchor found |
| `SpliceInjector.SpliceExamples` | ModMenu/ModMenuPatcher.cs:60-85 | one `callvirt EndMenu` gets the call four slots later; `ldftn EndMenu` is no anchor; an anchor next to the end makes `Insert` throw |
| `Discovery.IsExcluded` | ModMenu/ModMenuPatcher.cs:106-113 | an assembly is skipped when its name starts with `System`, `Microsoft`, `netstandard` or `mscorlib` |
| `Discovery.MenuNameOf` | ModMenu/ModMenuPatcher.cs:122-146 | `menuName` when `shouldAdd` is set: the attribute's `MenuName` (None when null) for a method with the attribute, otherwise the convention label for a public static `CreateModMenu`/`DrawModMenu`, otherwise None |
| `Discovery.EntryName` | ModMenu/ModMenuPatcher.cs:148 | a method is registered under `menuName` exactly when that is neither null nor empty; a registered name is never empty |
| `Discovery.ScanThrows` | ModMenu/ModMenuPatcher.cs:126-165 | handling a method throws when `GetCustomAttributes` throws, or when it is to be registered and binding its delegate (or creating the instance) throws |
| `Discovery.ScanMethods` | ModMenu/ModMenuPatcher.cs:117-171 | the entries of one type: method by method until the first one whose handling throws; at most one entry per method, none with an empty name |
| `Discovery.ScanTypes` | ModMenu/ModMenuPatcher.cs:115-172 | the entries of each type of an assembly in turn, none with an empty name |
| `Discovery.ScanAssembly` | ModMenu/ModMenuPatcher.cs:103-177 | an excluded assembly, or one whose `GetTypes` throws, adds nothing; otherwise it adds the entries of its types, none with an empty name |
| `Discovery.Discover` | ModMenu/ModMenuPatcher.cs:101-178 | the entries of the whole pass, assembly after assembly, none with an empty name |
| `Discovery.ScanType` | ModMenu/ModMenuPatcher.cs:117-171 | the method loop of one type, with its try/catch, yields exactly the type's entries by the rules, stopping at the first method whose handling throws |
| `Discovery.ScanTypeList` | ModMenu/ModMenuPatcher.cs:115-172 | the type loop of one assembly yields the entries of each type in turn |
| `Discovery.DiscoverEntries` | ModMenu/ModMenuPatcher.cs:101-178 | the assembly loop yields the entries of every assembly that is neither excluded nor failing `GetTypes`, in scan order |
| `Discovery.AttributeWins` | ModMenu/ModMenuPatcher.cs:126-134 | with the attribute, the entry name is its `MenuName` whatever the method's name, visibility or type; there is an entry exactly when `MenuName` is neither null nor empty |
| `Discovery.ConventionRule` | ModMenu/ModMenuPatcher.cs:136-148 | without the attribute, a method is registered exactly when it is static, public and named `CreateModMenu` or `DrawModMenu`, under the label derived from its type's name |
| `Discovery.StopsAtThrow` | ModMenu/ModMenuPatcher.cs:117-171 | once handling a method throws, no later method of that type is registered |
| `Discovery.EarlierEntriesKept` | ModMenu/ModMenuPatcher.cs:117-171 | entries from methods handled before an exception stay: the type's entries start with theirs |
| `Discovery.CompleteWithoutThrows` | ModMenu/ModMenuPatcher.cs:119-166 | when nothing throws, every method that a rule selects is registered with its name and callback |
| `Discovery.DiscoveredFrom` | ModMenu/ModMenuPatcher.cs:101-178 | every discovered entry comes from a method that a rule selects, under the entry's name and with its callback. That method's assembly is not excluded and its `GetTypes` does not throw, and no method of its type up to and including it throws |
| `Discovery.DiscoverComplete` | ModMenu/ModMenuPatcher.cs:101-178 | the converse of `DiscoveredFrom`, under the same conditions: a selected method is registered, with its name and callback, when its assembly is not excluded, its assembly's `GetTypes` does not throw, and no method of its type up to and including it throws |
| `Discovery.ExcludedAssemblyIgnored` | ModMenu/ModMenuPatcher.cs:106-113 | an excluded assembly contributes nothing: removing it does not change the result |
| `Discovery.ExclusionExamples` | ModMenu/ModMenuPatcher.cs:107-110 | `System.Core`, `Microsoft.CSharp`, `netstandard` and `mscorlib` are excluded; `ModMenu`, `MySystem` and `system` are not |
| `Patcher.ModMenuPatcher.constructor` | ModMenu/ModMenuPatcher.cs:29-30 | at process start the registry is empty, the latch is clear and the injection has not failed |
| `Patcher.ModMenuPatcher.AddToModMenu` | ModMenu/ModMenuPatcher.cs:189-198 | the registry grows by one, holds the old entries plus the new one (empty and duplicate names accepted), and is sorted |
| `Patcher.ModMenuPatcher.Initialize` | ModMenu/ModMenuPatcher.cs:93-183 | once the latch is set a call changes nothing, so the scan runs at most once; the first call adds exactly the discovered entries and leaves the registry sorted |
| `Patcher.ModMenuPatcher.Transpiler` | ModMenu/ModMenuPatcher.cs:50-86 | returns the spliced IL and leaves the flag alone, or returns the IL unchanged and sets `MenuInjectionFailed`, or (when `Insert` throws) returns the error and sets nothing |

## Left out

- `InjectModMenu` (ModMenu/ModMenuPatcher.cs:203-238) and `DrawBackUpWindow` (ModMenu/ModMenu.cs:31-51) are left out. They are ImGui calls and mod callbacks, including the lazy `Initialize` call on the first frame. Note that the backup window has no try/catch around a mod's callback.
- Harmony patching and unpatching, and the StarMap lifecycle hooks (ModMenu/ModMenu.cs:11-28), are left out. They are calls into foreign libraries. What Harmony does when the transpiler throws is not modelled.
- Logging through `DefaultCategory.Log` is left out; it is only a side effect.
- The two `ModMenuEntryAttribute` classes are not modelled as classes. They only hold a string; here that string is the `Tag` on a method record.
- Real reflection is replaced by records. A method record carries at most one attribute, which stands for the first attribute named `ModMenuEntryAttribute` that `FirstOrDefault` finds. Every assembly-level exception is folded into `typesThrow`. The catch at line 168 also ends a type when the `MenuName` getter throws inside `GetValue` (line 132); `attributesThrow` stands for that too. A type whose `GetMethods` throws (line 119) is a type record with no methods.
- `IgnoreCase.ToUpper` folds only the ASCII letters. .NET's ordinal ignore-case comparison also upper-cases other letters. Its comparer returns any negative or positive number; the model returns -1 and 1.
- Strings are Dafny strings of Unicode scalar values, not UTF-16 code units. So `IgnoreCase.CompareOrdinal` orders characters above U+FFFF after U+E000..U+FFFF. .NET compares their surrogate code units (0xD800..0xDFFF) and so sorts them before that range. Null strings (a null name passed to `AddToModMenu`, a null assembly name) are not modelled.
- `Discovery.IsExcluded` uses an ordinal prefix test. The source's `StartsWith(string)` is culture-sensitive, which differs only for names with characters the culture ignores.
- `Registry.SortByName` is an insertion sort. `List<T>.Sort` is an introsort. Only the promise they share is stated: sorted, and a permutation. Tie order is not stated.
- `Patcher.ModMenuPatcher.Initialize` appends the discovered entries once the scan is over; the source adds them one by one. Nothing reads the list during the scan, except for one case: a mod whose constructor (run by `Activator.CreateInstance`) calls `AddToModMenu` mid-scan. That re-entrancy is not modelled.
- `Patcher.ModMenuPatcher.Valid` assumes only these operations change the registry. `Mods` is a public list that other code could change directly.
