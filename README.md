# local-dev CLI core in Dafny

A Dafny model of the core of the `local-dev` command-line tool. It covers:

- **The use-statement formatter** (`UseFormatterService`). It reads PHP `use` statements and builds a prefix tree of the imported names per kind (class, `const`, `function`). It gives every node its depth and collapses the tree into `namespace`/`name` pairs. It then renders each kind sorted, grouped into braced lists, and laid out within a maximum line length.
- **The object tree of the formatter** (`Item`, `ItemContainer`). This includes its grouping passes: by sibling count, and by depth from the end of a branch.
- **The code generator's string logic.**
  - The file type chosen from a path (`FileType`).
  - Path normalisation and the PSR-4 namespace of a file.
  - The rule that a lower-case name generates a plain file.
- **`env()`**: the decoding of environment variables.
- **The workspace configuration** (`WorkspaceService`, `Layer`, `Window`). This covers grid strings for the window manager, available displays, and layers that own named windows.
- **The length-prefixed JSON framing** of a workspace socket `Connection`.

Layout of the model:

| file | module | models |
|---|---|---|
| `wrappers.dfy` | `Wrappers` | `Option`, `Result` |
| `strings.dfy` | `Strings` | PHP's `trim`, `explode`/`implode`, `strtolower`, `sort`, integer-to-string |
| `use_tree.dfy` | `UseTree` | `addStatement`, `getDepth`, `assignDepths`, `hasSibling`, `buildStatements` |
| `use_render.dfy` | `UseRender` | `renderStatements` |
| `use_format.dfy` | `UseFormat` | `format`, `expandStatements` |
| `item_tree.dfy` | `ItemTree` | `Item` and `ItemContainer` as one `Arena` class |
| `item_grouping.dfy` | `ItemGrouping` | `groupItemsBySiblingCount`, `groupItemsByDepthFromBranchEnd`, `getGroupedItems` |
| `file_type.dfy` | `FileTypes` | `FileType` |
| `code_generator.dfy` | `CodeGenerator` | `normalizePath`, PSR-4 namespace, `generate`'s type rule |
| `helpers.dfy` | `Helpers` | `env` |
| `workspace.dfy` | `Workspace` | `buildGrid`, `configureDisplay(s)`, `configureLayer(s)`, `Layer`, `Window` |
| `connection.dfy` | `Connection` | `handleData`, `send`, `sendSuccess`, `sendError` |

How the model is built:

- **Source loops become methods.** Each loop in the modelled code is a Dafny method with a loop. The method is proved equal to a specification function, and the properties are proved about that function.
- **Nested arrays become values.** The formatter's nested arrays are datatypes: `UseTree.Node` for the tree and `UseTree.Config` for the annotated tree.
- **Objects live in an arena.** The objects of `Item`/`ItemContainer` are records in one `ItemTree.Arena`. An object is its index; this plays the role of the per-class id counters.
- **The `grouped` flag is a field.** It is the `grouped` field of the arena, the only field the grouping passes write. Every tree function reads the other two fields, so those functions keep their values across a pass.
- **Exceptions become failures.** A thrown exception is the `Failure` case of a `Result`, with the message's meaning kept in the error value.

## Model

| member | source | states |
|---|---|---|
| Strings.Trim | cli/app/Services/UseFormatterService.php:300 | the result is no longer than the input and neither starts nor ends with whitespace; it is empty exactly when the input is all whitespace |
| Strings.TrimIsInfix | cli/app/Services/UseFormatterService.php:300 | the trimmed text is an infix of the input, and everything cut before and after it is whitespace |
| Strings.Split | cli/app/Services/UseFormatterService.php:31 | `explode` yields at least one piece; no piece holds the delimiter; joining the pieces gives back the input |
| Strings.SplitJoin | cli/app/Services/UseFormatterService.php:283 | `explode` inverts `implode` for pieces without the delimiter |
| Strings.SortStrings | cli/app/Services/UseFormatterService.php:258 | `sort` gives a byte-ordered permutation of the names |
| Strings.NatToString | cli/app/Services/WorkspaceService.php:231 | the decimal text of a number is non-empty digits whose value is the number |
| UseTree.Get | cli/app/Services/UseFormatterService.php:45 | a key lookup finds a node exactly when the key is among the entry names |
| UseTree.PutGet | cli/app/Services/UseFormatterService.php:41-46 | after writing a key, reading it gives the new node and other keys are unchanged |
| UseTree.FindAs | cli/app/Services/UseFormatterService.php:36 | the first ` as ` separator (whitespace runs around `as`) is found, or none exists |
| UseTree.SplitAlias | cli/app/Services/UseFormatterService.php:36-40 | without a separator the name has no alias; otherwise the name is a proper prefix and an alias exists |
| UseTree.SplitAliasRoundTrip | cli/app/Services/UseFormatterService.php:36-40 | `name as alias` splits back into the name and the alias |
| UseTree.InsertTarget | cli/app/Services/UseFormatterService.php:29-49 | after adding a statement, its path leads to a node marked `use` with the statement's alias, keeping the items the node had |
| UseTree.InsertPrefix | cli/app/Services/UseFormatterService.php:45-47 | every proper prefix of the path exists afterwards with an `items` list; an existing node keeps its `use` flag and alias, a new one is a plain namespace |
| UseTree.InsertElsewhere | cli/app/Services/UseFormatterService.php:29-49 | paths that are not prefixes of the statement look up exactly as before |
| UseTree.AddStatementImports | cli/app/Services/UseFormatterService.php:29-49 | `A\B\name as alias` imports `name` under `A\B` with that alias |
| UseTree.AddFirstExample | cli/app/Services/UseFormatterService.php:29-49 | adding `A\B` to an empty tree gives namespace `A` holding imported `B` |
| UseTree.Depth | cli/app/Services/UseFormatterService.php:57-72 | a leaf has depth 0; a namespace is one deeper than its deepest child, and 1 when it has none |
| UseTree.MaxOf | cli/app/Services/UseFormatterService.php:61-68 | the running maximum bounds every value and is one of them (0 for none) |
| UseTree.GetDepth | cli/app/Services/UseFormatterService.php:57-72 | the loop over the children computes `Depth` |
| UseTree.AnnotateEntry | cli/app/Services/UseFormatterService.php:84-95 | an annotated entry keeps name, `use` flag and alias, carries `Depth`, and has items exactly when the node has them |
| UseTree.AnnotateConsistent | cli/app/Services/UseFormatterService.php:81-98 | every annotated depth is 0 for leaves and one more than the deepest child otherwise |
| UseTree.AssignDepths | cli/app/Services/UseFormatterService.php:81-98 | the loop computes the annotation of every entry, in order |
| UseTree.HasSibling | cli/app/Services/UseFormatterService.php:107-123 | true exactly when some child other than the skipped one is a leaf or a depth-1 namespace with fewer than two items |
| UseTree.ScanSiblings | cli/app/Services/UseFormatterService.php:107-123 | the loop that stops at the first such child computes `HasSibling` |
| UseTree.LeafStatement | cli/app/Services/UseFormatterService.php:142-167 | when the pop rule holds the parent's name moves from the namespace into the name; otherwise the name is the leaf's own and the namespace is all ancestors (`--ROOT--` for none) |
| UseTree.BranchEnd | cli/app/Services/UseFormatterService.php:142-167 | the loop that pops parents off the ancestor stack computes `LeafStatement` |
| UseTree.BuildStatements | cli/app/Services/UseFormatterService.php:134-170 | the loop produces the concatenation of every entry's statements |
| UseTree.BuildPreservesFullNames | cli/app/Services/UseFormatterService.php:134-170 | namespace plus name of each statement is the full path of a branch end, in tree order |
| UseTree.BuildListPreservesFullNames | cli/app/Services/UseFormatterService.php:134-170 | the namespace-plus-name of the statements of a whole tree are exactly its branch-end paths, in tree order |
| UseTree.BuiltNamesAtMostTwoLevels | cli/app/Services/UseFormatterService.php:159-165 | a statement's name holds at most one moved-up parent |
| UseTree.ImportWithSubNamesIsNotBuilt | cli/app/Services/UseFormatterService.php:138-141 | `use A\B; use A\B\C;` marks `A\B` as imported, but only `A\B\C` is built |
| UseTree.InsertFilled | cli/app/Services/UseFormatterService.php:41-48 | inserting a path into a tree without empty namespaces gives a non-empty tree without empty namespaces |
| UseTree.AddStatementFilled | cli/app/Services/UseFormatterService.php:29-49 | adding a statement keeps the tree free of empty namespaces and makes it non-empty |
| UseTree.BuildListNotEmpty | cli/app/Services/UseFormatterService.php:134-170 | a non-empty tree without empty namespaces builds at least one statement |
| UseTree.BuildListRootNamed | cli/app/Services/UseFormatterService.php:134-170 | a tree without a top-level `--ROOT--` name never builds a statement named `--ROOT--` |
| UseRender.FindSet | cli/app/Services/UseFormatterService.php:185 | writing a key of the ordered map makes lookups of it return the new value and leaves other keys alone |
| UseRender.UnsetKeepsDistinct | cli/app/Services/UseFormatterService.php:193 | `unset` keeps keys unique |
| UseRender.GroupedByNamespace | cli/app/Services/UseFormatterService.php:182-187 | a namespace's group lists exactly that namespace's names, in input order, and is absent when it has none |
| UseRender.GroupByNamespace | cli/app/Services/UseFormatterService.php:182-187 | the grouping loop computes `Grouped` |
| UseRender.PromoteRootMoves | cli/app/Services/UseFormatterService.php:189-194 | the root group disappears and each root name becomes a stand-alone entry; other keys are untouched |
| UseRender.PromoteRoot | cli/app/Services/UseFormatterService.php:189-194 | the root-promotion loop computes `PromoteRootSpec` |
| UseRender.PromoteSinglesLeavesLargeGroups | cli/app/Services/UseFormatterService.php:196-202 | after promoting, every remaining group was an input group with at least two names |
| UseRender.PromoteStepKeepsLarge | cli/app/Services/UseFormatterService.php:196-202 | one round keeps only input groups that have two names or are not yet visited |
| UseRender.PromoteSingles | cli/app/Services/UseFormatterService.php:196-202 | the loop over a snapshot of the map computes `PromoteSinglesSpec` |
| UseRender.SortByKey | cli/app/Services/UseFormatterService.php:203 | `ksort` gives a key-sorted permutation |
| UseRender.MergeStateInvariant | cli/app/Services/UseFormatterService.php:205-223 | during merging, the items so far plus the pending names unfold to the sorted prefix; at the end nothing is pending |
| UseRender.MergedRoundTrip | cli/app/Services/UseFormatterService.php:205-223 | unfolding the merged items gives back the sorted map; no two comma lists are adjacent |
| UseRender.MergeSingles | cli/app/Services/UseFormatterService.php:205-223 | the iterator loop computes `Merged` |
| UseRender.FlatData | cli/app/Services/UseFormatterService.php:239-244 | every name but the last is followed by `, ` |
| UseRender.RowsKeepPieces | cli/app/Services/UseFormatterService.php:239-253 | the line-broken rows hold all the pieces, in order |
| UseRender.RowsFit | cli/app/Services/UseFormatterService.php:246-250 | a row over the allowed width holds only one piece |
| UseRender.RowsBreakOnlyWhenFull | cli/app/Services/UseFormatterService.php:246-250 | a new row starts only when the next piece does not fit on the current one |
| UseRender.FlatListBreaksBeforeFirst | cli/app/Services/UseFormatterService.php:246-250 | a first name wider than the allowed width is put on a new line after `use ` |
| UseRender.WriteFlatList | cli/app/Services/UseFormatterService.php:233-255 | the layout loop computes `FlatList` |
| UseRender.LayoutAgrees | cli/app/Services/UseFormatterService.php:241-253 | filling the current row piece by piece, breaking before a piece that does not fit, gives the text and last-row length of the row layout `Rows` |
| UseRender.BracedListFits | cli/app/Services/UseFormatterService.php:257-268 | a braced statement is written on one line when that line fits the maximum, and otherwise with one sorted name per indented line |
| UseRender.RenderedItemsShape | cli/app/Services/UseFormatterService.php:182-223 | the rendered items unfold to a key-sorted map; every braced group has at least two names |
| UseRender.RenderStatements | cli/app/Services/UseFormatterService.php:180-271 | the whole rendering method computes `Render` |
| UseRender.RenderEndsWithSemicolon | cli/app/Services/UseFormatterService.php:180-271 | a non-empty list with no name `--ROOT--` renders to text ending in `;` |
| UseRender.RootMarkerVanishes | cli/app/Services/UseFormatterService.php:188-194 | a lone root-level name `--ROOT--` is set as its own key, which the `unset` of the root group then removes, so nothing is rendered |
| UseFormat.MatchUse | cli/app/Services/UseFormatterService.php:314-321 | a statement has a use prefix exactly when it starts with `use` and whitespace; the kind is const (function) exactly when the word after the whitespace is the whole word `const` (`function`), and class otherwise; the prefix fits in the statement and swallows all whitespace after it |
| UseFormat.MatchUseAsWritten | cli/app/Services/UseFormatterService.php:314-321 | the pattern as written: same prefix condition, but the kind is const (function) exactly when the text after the whitespace merely starts with `const` (`function`) |
| UseFormat.MatchUseDiffersFromAsWritten | cli/app/Services/UseFormatterService.php:314-321 | the two readings differ exactly when the word after `use` starts with `const` or `function` without being that whole word |
| UseFormat.MatchUseRoundTrip | cli/app/Services/UseFormatterService.php:314-321 | the prefix of a rendered statement of any kind is read back as that kind |
| UseFormat.ConstantsNamespaceExample | cli/app/Services/UseFormatterService.php:314 | the regular expression as written reads `use constants\Foo` as a const import of `ants\Foo` |
| UseFormat.StripBreaksRemovesBreaks | cli/app/Services/UseFormatterService.php:322 | removing `\r\n`, `\r`, `\n` and `\t` leaves exactly the other characters |
| UseFormat.ReadBody | cli/app/Services/UseFormatterService.php:323-332 | without `{` the statement is a plain list; `{` without a final `}` fails with `Invalid bracket usage` |
| UseFormat.ReadBodyBraced | cli/app/Services/UseFormatterService.php:323-332 | `ns\{list}` reads as the prefix `ns\` and the list |
| UseFormat.ExpandStatements | cli/app/Services/UseFormatterService.php:281-287 | the loop over the comma-separated pieces computes `Expand` |
| UseFormat.ExpandJoined | cli/app/Services/UseFormatterService.php:281-287 | expanding a comma-joined list adds each item, in order |
| UseFormat.ReadStatement | cli/app/Services/UseFormatterService.php:313-332 | a statement without a use prefix fails with `Use prefix not found`; a body with `{` that does not end in `}` fails with `Invalid bracket usage`; on success only the table of its kind changes |
| UseFormat.ReadAllFirst | cli/app/Services/UseFormatterService.php:312-334 | statements are read in order, and the first failure ends the reading |
| UseFormat.FormatSpec | cli/app/Services/UseFormatterService.php:298-345 | blank input fails with `No content provided`; input without `;` fails with `No statements found`; output ends with a newline |
| UseFormat.ReadAllAppend | cli/app/Services/UseFormatterService.php:312-334 | reading a text cut after a `;` reads the first part, then continues from its tables, or keeps the first part's failure |
| UseFormat.ReadAllStopsAtBadStatement | cli/app/Services/UseFormatterService.php:312-334 | a statement that fails to read makes the whole reading fail with its error, whatever follows |
| UseFormat.FormatStopsAtBadStatement | cli/app/Services/UseFormatterService.php:312-334 | when the statements before one read fine and that one fails, `format` fails with its error; one without a `use` prefix fails with `Use prefix not found` |
| UseFormat.ReadStatementFills | cli/app/Services/UseFormatterService.php:313-332 | a statement read leaves every table free of empty namespaces, and the table of its kind non-empty |
| UseFormat.ReadAllFills | cli/app/Services/UseFormatterService.php:312-334 | reading keeps every table free of empty namespaces, and input with a `;` that reads fine fills at least one table |
| UseFormat.BlockEndsWithSemicolon | cli/app/Services/UseFormatterService.php:340-342 | a non-empty table without a top-level `--ROOT--` name renders to text ending in `;` |
| UseFormat.LastBlockEndsWithSemicolon | cli/app/Services/UseFormatterService.php:335-343 | with at least one such table, the last block written ends in `;` |
| UseFormat.OutputEndsWithOneBreak | cli/app/Services/UseFormatterService.php:344 | the output then ends in `;` and exactly one line break |
| UseFormat.FormatEndsWithOneBreak | cli/app/Services/UseFormatterService.php:298-345 | a successful `format` whose tables have no top-level `--ROOT--` name ends in `;` and exactly one line break |
| UseFormat.RootMarkerStatement | cli/app/Services/UseFormatterService.php:29-49 | `use function --ROOT--;` puts one imported top-level entry named `--ROOT--` into the table |
| UseFormat.RootMarkerBlock | cli/app/Services/UseFormatterService.php:340-342 | that table renders to the empty text |
| UseFormat.RootMarkerLeavesBlankLines | cli/app/Services/UseFormatterService.php:335-344 | beside a class import the output then ends in three line breaks, not one |
| UseFormat.OutputOrder | cli/app/Services/UseFormatterService.php:335-344 | with all three kinds present, they are written class, const, function, separated by an empty line |
| UseFormat.OutputOfTwoKinds | cli/app/Services/UseFormatterService.php:335-344 | with exactly two kinds present, the earlier of class, const, function comes first, then an empty line and the other, then one line break |
| UseFormat.OutputOfOneKind | cli/app/Services/UseFormatterService.php:335-344 | with one kind present, its block is followed by one line break and nothing else is written |
| UseFormat.ReadOne | cli/app/Services/UseFormatterService.php:313-332 | reading one statement computes `ReadStatement` |
| UseFormat.Format | cli/app/Services/UseFormatterService.php:298-345 | the statement loop and the output computes `FormatSpec` |
| UseFormat.WriteOutput | cli/app/Services/UseFormatterService.php:335-344 | the output loop computes `Output` |
| UseFormat.WriteBlock | cli/app/Services/UseFormatterService.php:340-342 | assign depths, build and render one kind: `Block` |
| ItemTree.PutMemberFinds | cli/app/Services/UseFormatter/ItemContainer.php:51-55 | after storing an item under its name, finding that name returns it; other names are unchanged |
| ItemTree.PutMemberKeepsDistinct | cli/app/Services/UseFormatter/ItemContainer.php:51-55 | storing by name keeps names unique, growing the container only for a new name |
| ItemTree.Union | cli/app/Services/UseFormatter/ItemContainer.php:176 | `+=` keeps the existing entries in front and adds the missing ones |
| ItemTree.Remove | cli/app/Services/UseFormatter/ItemContainer.php:219 | `unset` by id leaves exactly the ids not removed |
| ItemTree.Arena.constructor | cli/app/Services/UseFormatter/ItemContainer.php:35-38 | a new arena is empty and valid |
| ItemTree.Arena.NewItem | cli/app/Services/UseFormatter/Item.php:33-36 | a new item takes the next id, has no container yet and owns a new empty children container |
| ItemTree.Arena.NewRoot | cli/app/Services/UseFormatter/ItemContainer.php:35-38 | a new root container takes the next id and has no parent |
| ItemTree.Arena.Has | cli/app/Services/UseFormatter/ItemContainer.php:43-46 | true exactly when an entry has that name |
| ItemTree.Arena.Find | cli/app/Services/UseFormatter/ItemContainer.php:60-63 | finds an item exactly when `has` holds, and that item is stored under the name |
| ItemTree.Arena.IsEmpty | cli/app/Services/UseFormatter/ItemContainer.php:80-83 | empty exactly when the count is 0 |
| ItemTree.Arena.Name | cli/app/Services/UseFormatter/Item.php:41-48 | the name, lengthened exactly when an alias is asked for and defined |
| ItemTree.Arena.Container | cli/app/Services/UseFormatter/Item.php:87-93 | fails with `No parent defined on Item` exactly when the item was never added |
| ItemTree.Arena.Path | cli/app/Services/UseFormatter/Item.php:58-67 | the chain of items from the root level ends at the item, with ids increasing |
| ItemTree.Arena.DepthIsPathLength | cli/app/Services/UseFormatter/Item.php:117-123 | an item's depth is the length of its chain; the two fail together |
| ItemTree.Arena.ParentOnPath | cli/app/Services/UseFormatter/Item.php:151-159 | `getParent(n)` is the item `n` places up the chain, itself for `n <= 0`, and null past the top |
| ItemTree.Arena.ParentIsNullIffShallow | cli/app/Services/UseFormatter/Item.php:151-159 | for `n >= 1` it is null exactly when the item is at most `n` deep, and otherwise `n` levels higher |
| ItemTree.Arena.NamespaceIsJoinedPath | cli/app/Services/UseFormatter/Item.php:58-67 | `getNamespace(until)` joins the names on the chain below `until` and above the item |
| ItemTree.Arena.FullNameIsJoinedPath | cli/app/Services/UseFormatter/Item.php:74-80 | the fully qualified name is the names of the whole chain joined with `\` |
| ItemTree.Arena.FullNameWithAlias | cli/app/Services/UseFormatter/Item.php:74-80 | asking for the alias appends ` as alias` when one is defined |
| ItemTree.Arena.RelativeNameIsJoinedPath | cli/app/Services/UseFormatter/Item.php:58-80 | the name relative to an ancestor joins with `\` the names of the chain below that ancestor |
| ItemTree.Arena.RelativeFullName | cli/app/Services/UseFormatter/Item.php:58-80 | below an ancestor, the fully qualified name is the ancestor's name, `\`, and the relative name |
| ItemTree.Arena.PlacedHasNames | cli/app/Services/UseFormatter/Item.php:58-80 | once every item has been added, namespaces and full names never throw |
| ItemTree.Arena.Children | cli/app/Services/UseFormatter/Item.php:106-110 | an item's children container has the item as parent |
| ItemTree.Arena.ItemCountToLast | cli/app/Services/UseFormatter/Item.php:136-142 | positive exactly when the item has children |
| ItemTree.Arena.ContainerCountToLast | cli/app/Services/UseFormatter/ItemContainer.php:115-129 | at least 1, and 1 for an empty container |
| ItemTree.Arena.CountToLastIsMax | cli/app/Services/UseFormatter/ItemContainer.php:115-129 | a container's count is one more than the largest count of its items |
| ItemTree.Arena.GetCountToLast | cli/app/Services/UseFormatter/ItemContainer.php:115-129 | the loop with the running maximum computes `ContainerCountToLast` |
| ItemTree.Arena.SiblingsOf | cli/app/Services/UseFormatter/ItemContainer.php:138-148 | the siblings are exactly the entries that are imported or have no children |
| ItemTree.Arena.GetSiblings | cli/app/Services/UseFormatter/ItemContainer.php:138-148 | the loop computes `Siblings` |
| ItemTree.Arena.Renderable | cli/app/Services/UseFormatter/ItemContainer.php:168-180 | every renderable item is imported or a leaf, and not grouped |
| ItemTree.Arena.RenderableUnderParent | cli/app/Services/UseFormatter/ItemContainer.php:168-180 | a renderable item is among the renderable items below any of its ancestors |
| ItemTree.Arena.RenderableIsBelow | cli/app/Services/UseFormatter/ItemContainer.php:168-180 | the renderable items of an item's children all lie below that item |
| ItemTree.Arena.GetRenderableItems | cli/app/Services/UseFormatter/ItemContainer.php:168-180 | the recursive loop computes `Renderable` with the current `grouped` flags |
| ItemTree.UnionUnique | cli/app/Services/UseFormatter/ItemContainer.php:177 | `+=` onto an array without repeated ids gives an array without repeated ids |
| ItemTree.Arena.RenderableUnique | cli/app/Services/UseFormatter/ItemContainer.php:168-180 | the renderable items, keyed by id, list no item twice |
| ItemTree.Arena.RenderableInSubtree | cli/app/Services/UseFormatter/ItemContainer.php:168-180 | every renderable item of a root-level container lies in its tree: its chain starts at an entry of that container |
| ItemTree.Arena.SubtreeRenderable | cli/app/Services/UseFormatter/ItemContainer.php:168-180 | conversely, every item of the tree that is imported or a branch end and not grouped is among the renderable items |
| ItemTree.Arena.SiblingsUnique | cli/app/Services/UseFormatter/ItemContainer.php:138-148 | `getSiblings` lists no item twice, since the entries have distinct names |
| ItemTree.Arena.SiblingIsEntry | cli/app/Services/UseFormatter/ItemContainer.php:138-148 | a sibling of a container sits in that container and is imported or a branch end |
| ItemTree.Arena.EntryIsSibling | cli/app/Services/UseFormatter/ItemContainer.php:138-148 | an entry of a container that is imported or a branch end is one of its siblings |
| ItemTree.Arena.SiblingFullName | cli/app/Services/UseFormatter/Item.php:58-80 | for two items in the same non-root container, the namespace of one, `\` and the name of the other give the other's fully qualified name |
| ItemTree.Arena.AddRenderableEntry | cli/app/Services/UseFormatter/ItemContainer.php:172-177 | one round of the loop turns the renderable list of the first `k` entries into that of the first `k + 1`: the entry if it is renderable, then the renderable items below it |
| ItemTree.Arena.Add | cli/app/Services/UseFormatter/ItemContainer.php:51-55 | the item's container is set and it is stored under its name; validity and consistency are kept |
| ItemTree.Arena.FindOrCreate | cli/app/Services/UseFormatter/ItemContainer.php:68-75 | returns the stored item, or creates, adds and returns a new one; the tree stays consistent |
| ItemGrouping.DepthMap | cli/app/Services/UseFormatter/ItemContainer.php:251 | the depth of every item, failing exactly when one cannot be read |
| ItemGrouping.InsertByDepth | cli/app/Services/UseFormatter/ItemContainer.php:251 | inserting keeps the order by descending depth and adds exactly the item |
| ItemGrouping.SortByDepth | cli/app/Services/UseFormatter/ItemContainer.php:251 | `uasort` gives a permutation with depths descending; it fails exactly when two or more items include one without a depth |
| ItemGrouping.WithinDepth | cli/app/Services/UseFormatter/ItemContainer.php:264 | `array_filter` keeps exactly the items not deeper than the limit |
| ItemGrouping.FullNames | cli/app/Services/UseFormatter/ItemContainer.php:274-278 | the relative full names of the group, one per item, failing exactly when one fails |
| ItemGrouping.RunStopsAtFailure | cli/app/Services/UseFormatter/ItemContainer.php:203-222 | once a prefix of a pass throws, the pass throws the same exception |
| ItemGrouping.RunFollows | cli/app/Services/UseFormatter/ItemContainer.php:203-222 | a pass only adds grouped items, keeps the working set renderable, and removes exactly the newly grouped ones |
| ItemGrouping.SiblingRunSucceeds | cli/app/Services/UseFormatter/ItemContainer.php:201-223 | on a tree whose items were all added, the sibling pass never throws |
| ItemGrouping.DepthStepSucceeds | cli/app/Services/UseFormatter/ItemContainer.php:252-280 | with `depth >= 1` each depth step succeeds and removes the item it visits |
| ItemGrouping.DepthZeroKeepsLeaf | cli/app/Services/UseFormatter/ItemContainer.php:256-272 | with `depth <= 0` a leaf is its own group: the step leaves the working set unchanged |
| ItemGrouping.DepthPassEmpties | cli/app/Services/UseFormatter/ItemContainer.php:249-281 | with `depth >= 1` the depth pass groups every remaining item |
| ItemGrouping.GroupedItemsSucceed | cli/app/Services/UseFormatter/ItemContainer.php:289-299 | with `depth >= 1` `getGroupedItems` never throws `Unable to group all items`, and every renderable item ends up grouped |
| ItemGrouping.WithinDepthUnique | cli/app/Services/UseFormatter/ItemContainer.php:264 | `array_filter` keeps a list without repeated ids free of them |
| ItemGrouping.SiblingGroupIsRelative | cli/app/Services/UseFormatter/ItemContainer.php:209-221 | a sibling-pass group flags every sibling of the item's container and is yielded under the item's namespace with one name per sibling, and namespace, `\` and name give each sibling's fully qualified name |
| ItemGrouping.SiblingStepAccounted | cli/app/Services/UseFormatter/ItemContainer.php:203-222 | on a root-level tree a sibling step flags only new renderable items, and yields exactly one name per newly flagged item, that item's fully qualified name |
| ItemGrouping.DepthStepAccounted | cli/app/Services/UseFormatter/ItemContainer.php:252-280 | the same for a depth step: the item alone, the one item found, or the group under the ancestor |
| ItemGrouping.GroupedItemsYieldEach | cli/app/Services/UseFormatter/ItemContainer.php:289-299 | for a root-level container with `depth >= 1` and nothing grouped, the yielded groups spell out the fully qualified name of every renderable item, and exactly as many names as there are renderable items |
| ItemGrouping.GroupAlone | cli/app/Services/UseFormatter/ItemContainer.php:256-261 | yields the full name and flags the item, as `Alone` |
| ItemGrouping.FlagSiblings | cli/app/Services/UseFormatter/ItemContainer.php:215-220 | collects the names, sets the flags and removes the siblings from the working set |
| ItemGrouping.FlagGroup | cli/app/Services/UseFormatter/ItemContainer.php:273-278 | collects the relative names, sets the flags and removes the group |
| ItemGrouping.GroupSiblingsOf | cli/app/Services/UseFormatter/ItemContainer.php:204-221 | one sibling step computes `SiblingStep` and leaves the flags as it says |
| ItemGrouping.GroupByDepthOf | cli/app/Services/UseFormatter/ItemContainer.php:253-279 | one depth step computes `DepthStep` |
| ItemGrouping.GroupUnderParent | cli/app/Services/UseFormatter/ItemContainer.php:262-279 | the group under an ancestor computes `GroupUnder` |
| ItemGrouping.ItemsUnderAreBelow | cli/app/Services/UseFormatter/ItemContainer.php:262-264 | the items gathered under the ancestor `depth` levels up lie below it, at most `depth` levels down |
| ItemGrouping.GroupFoundIsRelative | cli/app/Services/UseFormatter/ItemContainer.php:265-279 | a group of two or more yields the ancestor's name as namespace and one name per item, and namespace, `\` and name give each item's fully qualified name |
| ItemGrouping.DepthGroupIsRelative | cli/app/Services/UseFormatter/ItemContainer.php:262-279 | a depth-step group holds items below the ancestor whose relative names join at most `depth` segments, and is yielded as `GroupFound` says |
| ItemGrouping.YieldFound | cli/app/Services/UseFormatter/ItemContainer.php:265-279 | a found group is yielded alone or as a namespace list, as `GroupFound` |
| ItemGrouping.RunPass | cli/app/Services/UseFormatter/ItemContainer.php:203-222 | the loop over the snapshot computes `Run` |
| ItemGrouping.GroupBySiblingCount | cli/app/Services/UseFormatter/ItemContainer.php:201-223 | the sibling pass computes `SiblingPass` |
| ItemGrouping.GroupByDepthFromBranchEnd | cli/app/Services/UseFormatter/ItemContainer.php:249-281 | sort, then the depth pass: `DepthPass` |
| ItemGrouping.GetGroupedItems | cli/app/Services/UseFormatter/ItemContainer.php:289-299 | yields the groups of `GroupedItems`, or throws its exception, and leaves its flags set; what those groups name is `GroupedItemsYieldEach` |
| FileTypes.FromFilePathPriority | cli/app/Services/CodeGenerator/Enums/FileType.php:24-49 | in the lower-cased path `interface` beats `trait`, which beats `enum`, which beats the class default; `test` then selects the test variant of class, trait and enum |
| FileTypes.FromFilePathRange | cli/app/Services/CodeGenerator/Enums/FileType.php:24-49 | a path never selects file or the backed enums; the result is a test type exactly when `test` occurs and it is not an interface |
| FileTypes.FromFilePathCaseInsensitive | cli/app/Services/CodeGenerator/Enums/FileType.php:32 | the choice ignores the path's letter case |
| FileTypes.ClassifyPath | cli/app/Services/CodeGenerator/Enums/FileType.php:24-49 | the keyword loop computes `FromFilePath` |
| FileTypes.TemplateFile | cli/app/Services/CodeGenerator/Enums/FileType.php:54-65 | enums share `enum.php`, tests share `test.php`, the rest use their own value |
| FileTypes.TemplateVars | cli/app/Services/CodeGenerator/Enums/FileType.php:70-77 | only the backed enums have variables, with `backed_type` `int` or `string` |
| CodeGenerator.NormalizePath | cli/app/Services/CodeGeneratorService.php:96-114 | the loop over the segments computes `Normalized` |
| CodeGenerator.NormalizedHasNoDotSegments | cli/app/Services/CodeGeneratorService.php:101-114 | the normalised path holds no empty, `.` or `..` segment |
| CodeGenerator.NormalizedKeepsAbsoluteness | cli/app/Services/CodeGeneratorService.php:98-114 | the result starts with `/` exactly when the input does |
| CodeGenerator.DotDotRemovesPrevious | cli/app/Services/CodeGeneratorService.php:106-110 | `..` removes itself and the segment before it |
| CodeGenerator.KeptIsSubsequence | cli/app/Services/CodeGeneratorService.php:101-114 | the kept segments are a subsequence of the input's segments |
| CodeGenerator.Psr4NamespaceOfSubdirectory | cli/app/Services/CodeGeneratorService.php:77-82 | a file below a PSR-4 root gets the prefix plus its sub-directory with `\` separators |
| CodeGenerator.Psr4NamespaceOfRoot | cli/app/Services/CodeGeneratorService.php:77-82 | a file in the root itself gets the prefix without trailing `\` |
| CodeGenerator.ResolveType | cli/app/Services/CodeGeneratorService.php:135-139 | a name not starting with an upper-case letter gives a plain file; otherwise the requested type or the path's type |
| Helpers.Env | cli/app/helpers.php:16-43 | a missing variable gives the default, or what a default closure returns, and a return-type error when that is not a bool, string or null; a present value never fails; each keyword pair gives exactly `true`, `false`, `""` or `null`; other text loses one pair of surrounding quotes |
| Helpers.IntDefaultIsTypeError | cli/app/helpers.php:16-21 | a missing variable with an integer default, given directly or by a closure, raises the return-type error, so `env('MAX_LINE_LENGTH', 120)` never returns 120 |
| Helpers.QuotedRoundTrip | cli/app/helpers.php:38-40 | a double-quoted value reads back as its contents |
| Workspace.BuildGrid | cli/app/Services/WorkspaceService.php:199-232 | succeeds exactly when all six values are present, in range and fit; the result is the six numbers joined with `:` |
| Workspace.GridStringRoundTrip | cli/app/Services/WorkspaceService.php:231 | splitting the grid string on `:` gives back the six values, in order |
| Workspace.DefaultGridString | cli/app/Services/WorkspaceService.php:116-123 | the default grid is `1:1:0:0:1:1` |
| Workspace.ConfigureDisplay | cli/app/Services/WorkspaceService.php:72-86 | a missing index or main layer fails; otherwise a display is returned exactly when its index is available |
| Workspace.ConfigureDisplays | cli/app/Services/WorkspaceService.php:60-70 | succeeds exactly when every display is complete, with the available ones in order; otherwise the first error |
| Workspace.AvailableDisplaysBound | cli/app/Services/WorkspaceService.php:60-70 | every listed display is configured and available; there are no more than configured |
| Workspace.Window.constructor | cli/app/Services/Workspace/Window.php:12-22 | a new window holds its name, app, title and grid, unbound |
| Workspace.Window.Matches | cli/app/Services/Workspace/Window.php:29-36 | a window manager window matches exactly when its app or its title equals the configured one |
| Workspace.Window.SetLayer | cli/app/Services/Workspace/Window.php:24-27 | the window's layer is set |
| Workspace.NewWindow | cli/app/Services/Workspace/Window.php:12-22 | a window with neither app nor title is refused |
| Workspace.Layer.constructor | cli/app/Services/Workspace/Layer.php:11 | a new layer holds its name, layout and display, with no windows |
| Workspace.Layer.AddWindow | cli/app/Services/Workspace/Layer.php:14-21 | a duplicate name fails; otherwise the window is appended and bound to the layer |
| Workspace.Layer.GetWindows | cli/app/Services/Workspace/Layer.php:26-29 | the windows have distinct names, each found by its name |
| Workspace.LookupDistinct | cli/app/Services/Workspace/Layer.php:14-29 | with distinct names, each window is found by its name |
| Workspace.SelectDisplay | cli/app/Services/WorkspaceService.php:125-141 | the first available preferred display, and none exactly when none is available |
| Workspace.MergeGrid | cli/app/Services/WorkspaceService.php:145 | window grid values override layer values, which override defaults |
| Workspace.WindowGrid | cli/app/Services/WorkspaceService.php:144-147 | a stack layout always gets the default grid `1:1:0:0:1:1` |
| Workspace.PlanLayer | cli/app/Services/WorkspaceService.php:108-151 | missing windows or display fail first; no available display fails; a success has the layer's layout and its first available display |
| Workspace.PlanWindowsFailureStays | cli/app/Services/WorkspaceService.php:143-149 | once an entry fails, the loop's outcome is that first error |
| Workspace.PlanWindowsDistinct | cli/app/Services/WorkspaceService.php:143-149 | a successful loop yields one window per entry, with distinct names |
| Workspace.PlanWindowsMatch | cli/app/Services/WorkspaceService.php:143-149 | window `i` carries entry `i`'s key, app and title (one of them given) and the grid built for it |
| Workspace.StackLayerUsesDefaultGrid | cli/app/Services/WorkspaceService.php:146 | every window of a stack layer gets `1:1:0:0:1:1` |
| Workspace.ChooseDisplay | cli/app/Services/WorkspaceService.php:129-138 | the loop stops at the first preferred display that is available, as `SelectDisplay` describes |
| Workspace.AddEntry | cli/app/Services/WorkspaceService.php:144-148 | one pass: a grid error first, then a window with neither app nor title, then a taken name; otherwise a fresh window is appended and owned by the layer |
| Workspace.AddWindows | cli/app/Services/WorkspaceService.php:143-149 | the loop adds exactly the windows `PlanWindows` describes, or stops with its first error |
| Workspace.ConfigureLayer | cli/app/Services/WorkspaceService.php:108-151 | builds the layer and windows `PlanLayer` describes, or fails with its error |
| Workspace.ConfigureLayers | cli/app/Services/WorkspaceService.php:94-101 | succeeds exactly when every layer does; otherwise the first failure |
| Connection.Be32RoundTrip | cli/app/Services/Workspace/Connection.php:37 | `unpack('N')` inverts `pack('N')` on 32-bit lengths |
| Connection.Frame | cli/app/Services/Workspace/Connection.php:74 | a frame is four length bytes followed by the body |
| Connection.FrameRoundTrip | cli/app/Services/Workspace/Connection.php:30-69 | a single frame split into any chunks is decoded once, leaving the reader idle |
| Connection.BackToBackFramesAsWritten | cli/app/Services/Workspace/Connection.php:61-64 | two frames in one chunk emit the first message and then misread the rest |
| Connection.FixedFeedsAllFrames | cli/app/Services/Workspace/Connection.php:30-69 | with the remainder fed back, every frame in one chunk is decoded, in order |
| Connection.Conn.constructor | cli/app/Services/Workspace/Connection.php:23 | a new connection is idle, with no events or writes |
| Connection.Conn.HandleData | cli/app/Services/Workspace/Connection.php:30-69 | the reading state and emitted events advance as `Feed` says |
| Connection.Conn.Send | cli/app/Services/Workspace/Connection.php:71-79 | one frame of the encoded message is written, and the connection ends when asked |
| Connection.Conn.SendSuccess | cli/app/Services/Workspace/Connection.php:81-87 | writes a `success: true` message and ends the connection |
| Connection.Conn.SendError | cli/app/Services/Workspace/Connection.php:89-97 | writes a `success: false` message and keeps the connection open |
| Connection.ErrorMessage | cli/app/Services/Workspace/Connection.php:89-97 | an error message is never a success message |
| Connection.SendReceiveRoundTrip | cli/app/Services/Workspace/Connection.php:71-79 | a message sent, however it is chunked, is received as the same message |

## Left out

- Console output (`writeln`, e.g. cli/app/Services/Workspace/Connection.php:62 and cli/app/Services/WorkspaceService.php:81, 84, 132 and 135) is left out and leaves no trace in the model. Socket writes and emitted events are recorded as sequences, not performed. `$_ENV` lookup, the clock and the async loop are also left out; their results are parameters.
- The line break `PHP_EOL` (cli/app/Services/UseFormatterService.php:248, 265, 270 and 344) is `"\n"` throughout, as on the macOS and Linux targets.
- `realpath`/`file_exists` at the end of `normalizePath` are left out: the model returns the normalised text.
- Composer-file discovery and JSON parsing (`getClosestComposerConfigFile`, `getComposerConfig`, the loop of `getTypeInfoFromFile`) are left out. Only the PSR-4 namespace computed once a root matches is modelled.
- `generate`'s template rendering (`include` with `extract`) is left out; the model stops at the type, template path and variables.
- `bindWindow`, `bindExistingWindows`, `focusLayer`, `focusLayerByName`, `setup` and `getAvailableDisplays` drive the window manager through asynchronous processes and are left out.
- JSON encoding and decoding are parameters of the connection: `decode` is a function from bytes to an optional value.
- Lengths are sequence lengths. The source's `strlen` counts bytes and `mb_strlen`/`mb_substr` count characters; the model treats each character as one unit.
- The id counters of `Item` and `ItemContainer` are per arena, not global statics.
- The memo caches `depth` and `count_to_last` are left out. Values are computed from the structure, which is what the caches return while the tree does not change.
- `getChildren`'s lazy creation is left out: every item owns its children container from the start, and an absent container reads like an empty one.
- ItemTree.Arena.Add: requires only that the item is newer than the container's parent (the only caller, `findOrCreate`, always meets this). That the tree stays consistent is promised only for an item not yet placed; re-adding a placed item under a different name is not modelled.
- ItemGrouping.GetGroupedItems: groups yielded before an exception are not returned, since the generator's consumer never reaches them.
- ItemGrouping.GroupedItemsYieldEach: stated for a root-level container, with no item grouped beforehand and every item named (as every segment parsed from a `use` statement is). For a nested container the depth step can climb to an ancestor above the container and yield items outside its renderable list, so the count no longer matches; `getGroupedItems` has no caller in the modelled source to say which containers it is meant for.
- ItemGrouping.FlagSiblings: sets the siblings' `grouped` flags in one assignment after the loop, not one per round. Nothing in the loop reads the flags and the loop cannot stop early, so the final state is the same.
- ItemGrouping.SortByDepth: the stability of `uasort` (equal depths keep their order) is not stated.
- Name segments are strings throughout. PHP turns a numeric segment into an integer array key (`$statements[$part]` at cli/app/Services/UseFormatterService.php:41-45, `foreach … as $name` at line 84), so `sort`/`ksort` (lines 203 and 258) compare such keys as numbers, and under `strict_types` `hasSibling($parent, $config['name'])` (lines 107 and 146) raises a type error, e.g. for `use A\1, A\B\C;`. The model orders such segments as text and raises no error.
- UseFormat.ReadStatement: reads the kind with the whole-word keyword rule (`MatchUse`), the corrected reading of the pattern at cli/app/Services/UseFormatterService.php:314 (see Findings). It differs from the pattern as written exactly when the word after `use` starts with `const` or `function` without whitespace after the keyword: `use constants\Foo;` is a class import of `constants\Foo` here and a const import of `ants\Foo` as written, `use functionX;` is a class import of `functionX` here and a function import of `X` as written, and `use const;` is a class import of `const` here and a const import of an empty name as written. `ReadOne`, `FormatSpec` and `Format` read statements the same way. `MatchUseAsWritten` models the pattern as written.
- UseFormat.FormatEndsWithOneBreak: promises exactly one final line break only when no kind has a top-level name `--ROOT--`. Such a name becomes a key that `unset($statements['--ROOT--'])` (cli/app/Services/UseFormatterService.php:193) removes, so its block is empty and the output can end in extra blank lines (`RootMarkerLeavesBlankLines`).
- `addStatement`'s moving reference `$statements =& …` is modelled as a recursive rebuild of the nested value.
- `assignDepths`' `parent` reference is modelled as the list of ancestors passed down by `buildStatements`.
- `renderStatements` and `format` take the maximum line length as a number. With a null maximum the source computes `(int) env('MAX_LINE_LENGTH', 120)` (cli/app/Services/UseFormatterService.php:225). That default never takes effect: `env` is declared `bool|string|null` under `strict_types` (cli/app/helpers.php:3 and 16), so when MAX_LINE_LENGTH is unset it raises a return-type error for the integer 120 (`Helpers.IntDefaultIsTypeError`). `format` with a null maximum therefore throws unless MAX_LINE_LENGTH is set, and `UseFormatterCommand` passes no maximum. The `(int)` cast of a set value is left out: the model takes the resulting number as a parameter.
- Connection.Conn.HandleData: kept as written (it re-feeds the wrong bytes, see Findings); nothing else in the model consumes it. `FeedFixed` is the corrected reader.
- Connection.Conn.HandleData: the 4-byte header is cut off as four bytes. The source cuts it with `mb_substr` (cli/app/Services/Workspace/Connection.php:37-38), which counts UTF-8 characters; a header byte from 0xC2 to 0xF4 may then be read as the lead byte of a multi-byte character, so that, e.g., a 200-byte body (header `00 00 00 C8`) may lose its first byte. `FrameRoundTrip` and `SendReceiveRoundTrip` therefore hold for byte framing, not necessarily for the source's character counting.

## Findings

| source | as written | input that shows it | evidently intended | confidence | as-written member | corrected member |
|---|---|---|---|---|---|---|
| cli/app/Services/Workspace/Connection.php:63 | after a complete message, the surplus bytes are handled by calling `handleData($data)`, the already consumed body | two frames in one chunk, `Frame(b1) + Frame(b2)` | `handleData($next_data)`: both messages are emitted | high; not executed | Connection.BackToBackFramesAsWritten | Connection.FixedFeedsAllFrames |
| cli/app/Services/UseFormatterService.php:314 | `#^use\s+(const\|function)?(\s+)?#` lets `const` or `function` match the start of a longer name | `use constants\Foo;` | a keyword is followed by whitespace; `constants\Foo` is a class import | medium; not executed | UseFormat.ConstantsNamespaceExample | UseFormat.MatchUseRoundTrip |
