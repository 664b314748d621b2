# Verified models of the governance tools

The repository's governance tools generate a Compose model from a service catalogue, fingerprint a source tree, cache and
patch JSON documents, compare snapshots, run validators on a pool and accept documents only when set and multimap checks
pass. This project models those algorithms in Dafny and proves what they are relied on for. File contents, git output,
process results and the clock are inputs; the text of messages is not modelled.

One module stands for one component:

| module | component |
|---|---|
| `Wrappers`, `Ordering`, `Text` | options and results; sorting and lexicographic order; split, join and decimal numerals |
| `Yaml`, `YamlReader`, `YamlAlphabets`, `YamlScalars` | the indentation-based printer of generate-compose.py, a reader that inverts it, the alphabets of keys for which one exists, the scalar tokens |
| `ComposeModel`, `ComposeContents`, `ServiceScanner`, `PortPolicy` | catalogue to Compose model, what the model holds, the line scanner of validate-compose.py, the port groupings |
| `GitIndex`, `SourceAnchor` | the git listing and the hashed byte stream of validate-non-ui-completeness.py |
| `JsonValue`, `JsonHeap`, `JsonCache` | JSON as values, JSON as mutable objects, the cache of realise-bounded-optimisation.py |
| `JsonPointer`, `Subscripts`, `JsonPatch`, `PatchInPlace` | pointers, the numbers their tokens spell and patches of validate-evidence-reuse.py, on values and on live objects |
| `TreeWalk`, `TreeInventory` | the pruned directory walk and the flat inventory filter |
| `SnapshotCompare` | normalisation and the truncated difference list of proof-cockpit-compare.py |
| `Aggregate` | the bounded pool of validate-aggregate.py as a transition system |
| `BootstrapMappings`, `ProofAnchors` | rule 008, the mapping index and the anchor tags of validate-bootstrap.py |
| `DevSweep`, `ExhaustionSummary` | the sweep, triage and summary rules of the two dev-realisation validators |
| `InvalidationMap`, `InvalidationClassify`, `InvalidationFixtures` | the evidence invalidation map, path classification and planted defects |

Where the source updates an object or a list step by step, the model is a class or a method with loops (`Hasher`,
`JsonCache`, `Node`, `Findings`, the patch loop, the printer, every validator loop), proved against a specification; the
properties are lemmas about that specification.

## Results worth knowing

- The cache agrees with fresh parsing in every session exactly when modification time and size tell apart the versions of
  a file that parse differently. Changing them with every edit is not enough: a third version may bring back the first
  stamp (`EditsMayRestoreAStamp`).
- Pointer decoding inverts encoding except for two token lists. `/` is taken for the whole document and the empty pointer
  is refused, which differs from section 3 of RFC 6901.
- Adding and then removing restores a list exactly when the subscript is in range from the front, or when the element is
  duplicated; negative and overlong subscripts are clamped by insertion but not by removal.
- Replacing a missing dictionary key adds it and removing one is silent, where sections 4.2 and 4.3 of RFC 6902 ask for an
  error; this is the only difference from operations that fail on a missing key (`StrictIff`).
- Keys may hold colons, dashes and spaces, and printed documents can still be told apart as long as no key starts with a
  space (`PrintAlikeIffSameTokens`). Keys that do can forge the indentation (`LeadingSpaceCollides`): over an alphabet of at
  least two keys two different documents print alike exactly when some key is a positive even number of spaces followed by
  another key, or by text that together with a colon reads as a whole line with a scalar (`PrintsApartIff`).
- A port that lists one profile twice conflicts with itself under rule 019 while rule 017 is silent
  (`RepeatedProfileFiresAlone`). Clashes of rule 019 are clashes of rule 017 exactly when every port that repeats a profile
  shares its socket with another port (`ProfileClashesAreClashesIff`).
- Triage buckets are compared as sets, so an entry listed twice goes unseen (`RepeatedEntryUnseen`): where the rules are
  clean the list lengths add up to the number of contract files exactly when no bucket repeats an entry (`ListsAddUpIff`).
  Rule 004 of the summary counts dispositions, so a repeated one can hide a missing contract (`DispositionsMayOmit`); it
  covers every contract exactly when no disposition is repeated.
- The self-test of the invalidation map catches every planted removal on every base map that the fixture can be applied
  to. A planted path is caught exactly when no input class places it, or the fallback policy is broken already.
- Stripping a check takes nothing else away, whatever the classes keep their checks in. Checks stored as the keys of an
  object do not count before a fixture and do after it (`KeysBecomeChecks`), so stripping adds nothing exactly when whatever
  the stripped classes keep outside lists is covered already (`AddsNothingIff`).
- The walked inventory equals the filtered listing exactly when every regular file walked is listed and free of pruned
  names, walked links lead to kept paths, and every kept path is a regular file walked or led to by a walked link
  (`InventoriesAgreeIff`). The listing of git is an input: it omits ignored files, so a `.env` file below a root makes the
  two differ (`IgnoredFileDiffers`), and it may name files gone from disk (`DeletedFileDiffers`).

## Model

| member | source | states |
|---|---|---|
| Yaml.EmitYaml | tools/generate-compose/generate-compose.py:49-85 | the recursive printer that appends lines yields exactly the lines of the specification `Emit` |
| YamlReader.ReadInvertsEmit | tools/generate-compose/generate-compose.py:49-85 | an indentation reader gives back shape, key order and scalar tokens of every nested dictionary or list whose keys do not start with a space |
| YamlReader.PrintAlikeIffSameTokens | tools/generate-compose/generate-compose.py:49-85 | two such documents print alike if and only if they match up to scalar tokens |
| YamlAlphabets.PrintsApartIff | tools/generate-compose/generate-compose.py:49-85 | over an alphabet of at least two keys, documents that print alike match up to scalar tokens if and only if no key is an indented key or an indented whole line |
| YamlAlphabets.UnshiftedApart | tools/generate-compose/generate-compose.py:49-85 | the direction without collisions, for alphabets of any size |
| YamlReader.LeadingSpaceCollides | tools/generate-compose/generate-compose.py:56-68 | a concrete pair of different documents that print alike because a key starts with spaces |
| YamlScalars.QuoteInjective | tools/generate-compose/generate-compose.py:46 | quoted texts are equal only if the texts are, surrogate pairs included |
| YamlScalars.EscapedAs | tools/generate-compose/generate-compose.py:46 | a quoted printable ASCII character stands for itself, quotes and backslashes are escaped, five control characters have short escapes and the other characters of the basic plane their number |
| YamlScalars.SameTokenIff | tools/generate-compose/generate-compose.py:33-46 | two scalars share a token exactly when they are equal, or one is a number and the other the unquoted text that spells it |
| ComposeModel.ComposeModel | tools/generate-compose/generate-compose.py:161-215 | the loop over services returns the specified model, or the first exception |
| ComposeContents.ModelContents | tools/generate-compose/generate-compose.py:161-215 | a generated model holds its name, the services, volumes, networks and production requirements the catalogue declares, key by key, in the order of the catalogue, and nothing else |
| ComposeContents.ListedByFirst | tools/generate-compose/generate-compose.py:173-186 | names set one after the other stand in a dictionary each once, by ascending first occurrence |
| ComposeContents.ServiceDescribed | tools/generate-compose/generate-compose.py:127-158 | a service entry holds the image, the last value of each variable, one port entry in order per published port, the kept dependencies, the profiles of the policy or else of the service, and command, volumes and health check where they are not empty, in a fixed order |
| ComposeContents.PortDescribed | tools/generate-compose/generate-compose.py:103-113 | a port entry holds the port's own name, target, published port, address and protocol, and its application protocol if there is one |
| ComposeContents.RequirementDescribed | tools/generate-compose/generate-compose.py:187-200 | a production requirement holds the service's identifier and its eight boundary fields under their names |
| ComposeModel.ServiceDependsOn | tools/generate-compose/generate-compose.py:127-158 | a service entry waits for exactly its declared dependencies inside the target |
| ComposeModel.DependencyConditions | tools/generate-compose/generate-compose.py:92-100 | a kept dependency carries the condition declared last for it, and nothing outside the target is kept |
| ComposeModel.CollectedNames | tools/generate-compose/generate-compose.py:174-185 | the volumes and networks of a model are exactly the non-empty names its generated services give |
| ComposeModel.FailsAtFirstUnbuildable | tools/generate-compose/generate-compose.py:132-137 | the model fails exactly when a generated service has no Compose service, and names the first one |
| ComposeModel.FirstUnbuildableIsFirst | tools/generate-compose/generate-compose.py:132-137 | that service cannot be built and every earlier one can |
| ComposeModel.CatalogueServiceNames | tools/validate-compose/validate-compose.py:234-240 | the loop returns exactly the service names the target contains |
| ComposeModel.GeneratedDependencies | tools/validate-compose/validate-compose.py:243-252 | the declared dependencies by name, the last service of a name counting |
| ComposeModel.ReportMissingDependencies | tools/validate-compose/validate-compose.py:603-605 | the rule 029 loop reports exactly the declared edges that leave the target |
| ComposeModel.GeneratedGraphIsClosed | tools/generate-compose/generate-compose.py:92-100 | every generated edge ends at a generated service, and declared edges split into generated ones and those rule 029 reports, even when service names repeat |
| ServiceScanner.ComposeServiceNamesFromText | tools/validate-compose/validate-compose.py:703-716 | the flag-driven line scanner finds exactly the names of its specification |
| ServiceScanner.SplitInvertsUnlines | tools/generate-compose/generate-compose.py:220 | splitting joined lines that hold no line end gives the lines back |
| ServiceScanner.SplitAtEnding | tools/validate-compose/validate-compose.py:706 | a line goes up to its ending, a carriage return with its line feed being one |
| ServiceScanner.ScanInvertsRender | tools/validate-compose/validate-compose.py:703-716 | for every catalogue with readable names, scanning the rendered text yields exactly the keys of the model's services and the authorised names, none included, despite the indented keys around the block |
| PortPolicy.SemanticPortsForEnvironment | tools/validate-compose/validate-compose.py:255-269 | the port records of an environment, in order |
| PortPolicy.RecordAtPlace | tools/validate-compose/validate-compose.py:255-269 | the records are the ports scoped to the environment, once each, with the service they belong to |
| PortPolicy.ValidatePortPolicy | tools/validate-compose/validate-compose.py:276-337 | the grouping loops report exactly the 017, 018 and 019 findings of the grouped specification |
| PortPolicy.SameEnvironmentIffClash | tools/validate-compose/validate-compose.py:315-317 | rule 017 fires for a socket exactly when two records of the environment share host, port and protocol |
| PortPolicy.AcrossIffShared | tools/validate-compose/validate-compose.py:328-337 | rule 018 fires exactly when a socket appears in two environments and some sharer is not single-environment-only |
| PortPolicy.SameProfileIffProfileClash | tools/validate-compose/validate-compose.py:319-326 | rule 019 fires for a socket and a profile exactly when two records share both or one user of the socket lists the profile twice |
| PortPolicy.ProfileClashesAreClashesIff | tools/validate-compose/validate-compose.py:315-326 | every 019 clash of an environment is a 017 clash if and only if each port that repeats a profile shares its socket with another port |
| PortPolicy.RepeatedProfileFiresAlone | tools/validate-compose/validate-compose.py:319-326 | a repeated profile makes one port clash with itself under 019 and not under 017 |
| GitIndex.SourceTreeAnchorEntries | tools/validate-non-ui-completeness/validate-non-ui-completeness.py:164-189 | the parsing loop returns the sorted entries of the specification or its first exception |
| GitIndex.ParseInvertsPrint | tools/validate-non-ui-completeness/validate-non-ui-completeness.py:175-189 | reading printed records gives back the non-excluded entries, sorted, whatever tabs and spaces paths hold |
| GitIndex.EntriesAscend | tools/validate-non-ui-completeness/validate-non-ui-completeness.py:189 | the list ascends by path, then mode, object and stage, byte by byte |
| GitIndex.EntriesKept | tools/validate-non-ui-completeness/validate-non-ui-completeness.py:184-188 | every entry is what some record prints, and its path is not left out |
| GitIndex.ExcludedIff | tools/validate-non-ui-completeness/validate-non-ui-completeness.py:184-187 | a path is left out exactly when it is listed or begins with a listed prefix |
| GitIndex.RecordOrderIrrelevant | tools/validate-non-ui-completeness/validate-non-ui-completeness.py:175-189 | any permutation of the records gives the same list, and is readable if the other is |
| GitIndex.EntriesNulFree | tools/validate-non-ui-completeness/validate-non-ui-completeness.py:175 | no field of a parsed entry holds the separator |
| SourceAnchor.Hasher.UpdateRecord | tools/validate-non-ui-completeness/validate-non-ui-completeness.py:218-231 | feeding a file appends its seven separated fields, the content after its decimal length |
| SourceAnchor.ComputeSourceTreeAnchor | tools/validate-non-ui-completeness/validate-non-ui-completeness.py:210-232 | the hashing loop digests the specified byte stream and counts the entries, or raises the first exception |
| SourceAnchor.StatIff | tools/validate-non-ui-completeness/validate-non-ui-completeness.py:215-227 | a file can be hashed exactly when it is there and its index fields are ASCII; the exception names the path or the first field that is not |
| SourceAnchor.StatsUpToFirst | tools/validate-non-ui-completeness/validate-non-ui-completeness.py:215-227 | hashing stops at the first file that cannot be hashed, with its exception |
| SourceAnchor.DecodeInvertsPreImage | tools/validate-non-ui-completeness/validate-non-ui-completeness.py:213-231 | a decoder recovers the entry list from the byte stream, arbitrary binary contents included |
| SourceAnchor.ItemsEncodable | tools/validate-non-ui-completeness/validate-non-ui-completeness.py:210-231 | every list the tool hashes meets the decoder's conditions |
| SourceAnchor.SamePreImageSameItems | tools/validate-non-ui-completeness/validate-non-ui-completeness.py:210-231 | two trees with the same byte stream have the same entries and contents |
| SourceAnchor.AnchorDeterminesTree | tools/validate-non-ui-completeness/validate-non-ui-completeness.py:210-232 | where the digest does not collide on the two streams, anchors are equal exactly when the entries are and behind each path there is the same link, or a file with the same content and executable bit |
| SourceAnchor.ItemOfFile | tools/validate-non-ui-completeness/validate-non-ui-completeness.py:197-224 | what is hashed of a file is its entry, its content and the mode 120000 for a link, 100755 for an executable and 100644 otherwise |
| JsonCache.JsonCache.Load | tools/repository-optimisation/realise-bounded-optimisation.py:174-185 | one load updates key set and counters as the model says and returns a document of fresh objects that share nothing with the cache |
| JsonHeap.DeepCopy | tools/repository-optimisation/realise-bounded-optimisation.py:180-185 | copying yields an equal document made of fresh objects only |
| JsonCache.Session | tools/repository-optimisation/realise-bounded-optimisation.py:168-185 | in every run of loads, writes, deletions and caller mutations, shared and cyclic structures included, what loads return is what the value model says |
| JsonCache.CountersAddUp | tools/repository-optimisation/realise-bounded-optimisation.py:171-185 | misses equal the number of cached keys, and hits plus misses equal the completed loads |
| JsonCache.TransparentIffHonest | tools/repository-optimisation/realise-bounded-optimisation.py:174-185 | every session over a set of file versions agrees with fresh parsing if and only if no two versions of a file with the same modification time and the same size parse differently |
| JsonCache.EditsMayRestoreAStamp | tools/repository-optimisation/realise-bounded-optimisation.py:177-180 | three versions, each edit changing the stamp, on which the cache is stale |
| JsonCache.NegativeControl | tools/repository-optimisation/realise-bounded-optimisation.py:352-367 | the tool's own control reports isolation, invalidation, one hit and two misses |
| JsonPointer.TwoPassIsOnePass | tools/validate-evidence-reuse/validate-evidence-reuse.py:673 | for every string, replacing `~1` and then `~0` equals a one-pass unescape |
| JsonPointer.SwappedPassesDiffer | tools/validate-evidence-reuse/validate-evidence-reuse.py:673 | in the other order the two replacements undo escaping exactly for tokens that do not contain the text `~1` |
| JsonPointer.DecodeInvertsEncode | tools/validate-evidence-reuse/validate-evidence-reuse.py:668-673 | decoding an encoded token list gives it back exactly when it is neither empty nor the single empty token |
| Subscripts.ParseIntIff | tools/validate-evidence-reuse/validate-evidence-reuse.py:680 | a subscript reads as a number exactly when it is white space around an optional sign and digits, single underscores between them, that stand for it |
| Subscripts.DecimalParses | tools/validate-evidence-reuse/validate-evidence-reuse.py:695 | the decimal numeral of n reads as n, after a minus sign as its opposite; a plus sign and surrounding white space change nothing |
| Subscripts.PaddingIgnored | tools/validate-evidence-reuse/validate-evidence-reuse.py:695 | white space around any token changes nothing |
| Subscripts.NoDigitNoNumber | tools/validate-evidence-reuse/validate-evidence-reuse.py:695 | a token without a digit is refused |
| JsonPatch.PathReaches | tools/validate-evidence-reuse/validate-evidence-reuse.py:676-692 | the pointer spelled from a location, positions in decimal, leads to that location, the single empty key excepted |
| JsonPatch.ReplacesAt | tools/validate-evidence-reuse/validate-evidence-reuse.py:695-707 | replacing at the pointer of a location puts the value there |
| JsonPatch.AddsAt | tools/validate-evidence-reuse/validate-evidence-reuse.py:695-705 | adding sets the key or makes room at the position, past the end at the end; other tokens on a list and scalars are refused |
| JsonPatch.RemovesAt | tools/validate-evidence-reuse/validate-evidence-reuse.py:695-709 | removing takes out the key or the element and keeps the order of the rest |
| JsonPatch.UntouchedElsewhere | tools/validate-evidence-reuse/validate-evidence-reuse.py:688-713 | a location apart from the edited container keeps its value, or stays absent |
| JsonPatch.UntouchedSiblings | tools/validate-evidence-reuse/validate-evidence-reuse.py:695-711 | siblings of the target keep their values at their place, list elements shifted by at most one, and what is absent below them stays absent |
| JsonPatch.NothingElseAppears | tools/validate-evidence-reuse/validate-evidence-reuse.py:695-711 | whatever the edited container holds afterwards is the operation's value at its place or a sibling that was there before |
| JsonPatch.StrictIff | tools/validate-evidence-reuse/validate-evidence-reuse.py:695-711 | replacing and removing agree with operations that fail on a missing dictionary key exactly when no dictionary key is missing |
| JsonPatch.AddThenRemove | tools/validate-evidence-reuse/validate-evidence-reuse.py:695-709 | an addition followed by a removal restores the document exactly when a key was new or the subscript undoes itself |
| JsonPatch.ReplaceThenReplace | tools/validate-evidence-reuse/validate-evidence-reuse.py:695-707 | replacing an existing value and replacing it back restores the document |
| JsonPatch.RemoveThenAdd | tools/validate-evidence-reuse/validate-evidence-reuse.py:695-709 | removing an existing value and adding it back restores the document exactly when the subscript is not negative, or names the first element, or its left neighbour is equal |
| PatchInPlace.PatchParent | tools/validate-evidence-reuse/validate-evidence-reuse.py:676-685 | the walk through live objects reaches the container the value model names, or fails the same way |
| PatchInPlace.ApplyPatchOperations | tools/validate-evidence-reuse/validate-evidence-reuse.py:688-713 | editing the live document in place leaves exactly the document and the exception of the operations on values, earlier edits kept when a later one raises |
| TreeWalk.WalkFiles | tools/repository-optimisation/realise-bounded-optimisation.py:240-253 | the walk with in-place pruning returns the flat listing filtered afterwards, in the same order |
| TreeWalk.WalkIsFlat | tools/repository-optimisation/realise-bounded-optimisation.py:245-252 | pruning during the walk and filtering whole paths by their directory segments below the root agree |
| TreeInventory.ListedIffBelow | tools/repository-optimisation/realise-bounded-optimisation.py:245-252 | the flat listing holds exactly the files reachable without passing a link |
| TreeInventory.WithinIffPrefix | tools/repository-optimisation/realise-bounded-optimisation.py:454-456 | the textual prefix test holds exactly when the root's components are a prefix of the path's |
| TreeInventory.PrunedSegments | tools/repository-optimisation/realise-bounded-optimisation.py:459-460 | the segment test holds exactly when a component is a pruned name |
| TreeInventory.RepositoryInventory | tools/repository-optimisation/realise-bounded-optimisation.py:463-480 | the listing loop keeps exactly the stripped lines that pass both tests |
| TreeInventory.LinesArePaths | tools/repository-optimisation/realise-bounded-optimisation.py:473-479 | for any listing the kept lines are exactly the paths the lines name that are unpruned and inside a root |
| TreeInventory.DeclaredPaths | tools/repository-optimisation/realise-bounded-optimisation.py:487-490 | the union of the walks of the declared roots with links resolved; a path resolved outside the repository raises |
| TreeInventory.InventoriesAgreeIff | tools/repository-optimisation/realise-bounded-optimisation.py:463-505 | for any listed paths, walks and filtered listing are the same set exactly when every regular file walked is listed with no pruned name of its own or in its root, walked links lead to kept paths, and every kept path is a regular file below a root or led to by a walked link |
| TreeInventory.CleanTreesAgree | tools/repository-optimisation/realise-bounded-optimisation.py:463-505 | in particular they agree when every walked file is listed and no name of it or of a root is pruned, every kept path is a regular file on disk and no root is itself listed |
| TreeInventory.IgnoredFileDiffers | tools/repository-optimisation/realise-bounded-optimisation.py:464-465 | a file below a root that the listing omits, such as an ignored one, makes them differ |
| TreeInventory.DeletedFileDiffers | tools/repository-optimisation/realise-bounded-optimisation.py:464-465 | so does a listed file gone from disk, unless a walked link leads to its path |
| SnapshotCompare.NormalizedDiffs | tools/proof-cockpit-compare/proof-cockpit-compare.py:144-168 | the truncating recursion returns the first `limit` findings of the full difference list |
| SnapshotCompare.ListedIsSoundAndComplete | tools/proof-cockpit-compare/proof-cockpit-compare.py:144-168 | for every limit of at least one the list is empty exactly for equal values, never longer than the limit, names only paths where the values differ, and misses no difference while it is short of the limit |
| SnapshotCompare.NormalizedPlaces | tools/proof-cockpit-compare/proof-cockpit-compare.py:124-133 | below visible keys a volatile key holds its placeholder, texts are rewritten, other scalars stay and containers keep keys and lengths |
| SnapshotCompare.NormalizeForgetsExactlyVolatile | tools/proof-cockpit-compare/proof-cockpit-compare.py:124-133 | two values normalise alike exactly when they look alike at every location no volatile key leads to, up to the string rewriter |
| SnapshotCompare.ListedAreFirst | tools/proof-cockpit-compare/proof-cockpit-compare.py:144-168 | the list names, with kind and path, the first of exactly the differences the comparison is owed, in ascending order of location, and nothing else |
| SnapshotCompare.MarkedIffNoticed | tools/proof-cockpit-compare/proof-cockpit-compare.py:144-168 | a difference is owed where one of two compared dictionaries lacks a key, two lists differ in length, a value is too long, or two values of different kinds or two scalars differ |
| SnapshotCompare.CompareSnapshots | tools/proof-cockpit-compare/proof-cockpit-compare.py:225-241 | the comparison passes exactly when the guardrails are silent and the snapshots look alike outside volatile keys; its findings are those of the guardrails and then the first 80 differences owed between the normalised snapshots |
| Aggregate.RunFamily | tools/validate-aggregate/validate-aggregate.py:47-61 | a family's return code is zero exactly when its process exited with zero |
| Aggregate.NeverTwice | tools/validate-aggregate/validate-aggregate.py:67-70 | in every reachable state at most `jobs` families run and no family is collected twice or before it ended |
| Aggregate.NeverStuck | tools/validate-aggregate/validate-aggregate.py:67-70 | while a family is uncollected and there is a worker, some step is possible |
| Aggregate.RunsEnd | tools/validate-aggregate/validate-aggregate.py:67-70 | no schedule is longer than four steps per family, and those of that length are the finished ones |
| Aggregate.VerdictIgnoresSchedule | tools/validate-aggregate/validate-aggregate.py:64-88 | every finished run has collected each family once, failed exactly those with a non-zero code, and passes exactly when there is none |
| Aggregate.RunFamilies | tools/validate-aggregate/validate-aggregate.py:64-88 | any interleaving of the pool yields the same verdict |
| Aggregate.Command | tools/validate-aggregate/validate-aggregate.py:125-142 | the exit codes, an empty or malformed list of families included |
| BootstrapMappings.CheckBootstrapMappings | tools/validate-bootstrap/validate-bootstrap.py:812-872 | the three loops report exactly the findings owed, and none exactly on a clean state |
| BootstrapMappings.CleanIffBijection | tools/validate-bootstrap/validate-bootstrap.py:827-872 | rule 008 is silent exactly when the schema works, there are records, and sound records and contracts correspond one to one |
| BootstrapMappings.ExpectedMappingIndex | tools/validate-bootstrap/validate-bootstrap.py:727-763 | the counting loop counts the indexed records of each domain |
| BootstrapMappings.CleanIndex | tools/validate-bootstrap/validate-bootstrap.py:727-763 | on a clean state there are as many mappings as contracts, each domain counts exactly its contracts, and the domain counts add up |
| ProofAnchors.RemoteAnchorCommits | tools/validate-bootstrap/validate-bootstrap.py:310-348 | the two dictionaries yield exactly the target of every anchor reference |
| ProofAnchors.TargetOfTag | tools/validate-bootstrap/validate-bootstrap.py:331-347 | the target of an anchor tag is its commit and never the tag object, in any order of lines |
| ProofAnchors.ExposesExactlyAnchored | tools/validate-bootstrap/validate-bootstrap.py:310-348 | on the lines git prints for some tags the commits found are exactly those the anchor tags target |
| ProofAnchors.NamesDoNotMatter | tools/validate-bootstrap/validate-bootstrap.py:310-319 | two listings expose the same commits exactly when their anchor tags target the same ones, whatever the tags are called, annotated or lightweight, in whatever order |
| ProofAnchors.CheckAnchorForCurrentMain | tools/validate-bootstrap/validate-bootstrap.py:619-658 | a finding appears exactly when current main is not anchored and the racing first attempt cannot fall back on its parent |
| DevSweep.Rule002 | tools/validate-dev-realisation/validate-dev-realisation.py:132-149 | clean exactly when counts, references and paths are complete, and lists each finding once and in order; sorting a missing reference among others raises |
| DevSweep.Rule004 | tools/validate-dev-realisation/validate-dev-realisation.py:166-172 | reports exactly the rows outside the vocabulary, each once and in row order |
| DevSweep.Rule010 | tools/validate-dev-realisation/validate-dev-realisation.py:245-261 | reports exactly the buckets that are missing or not the projection of their classification, each once and in the order of the table |
| DevSweep.ProjectedByName | tools/validate-dev-realisation/validate-dev-realisation.py:68-78 | rule 010 is clean exactly when each bucket, by its name, holds the contracts of the classification that belongs to it |
| DevSweep.AllowedByName | tools/validate-dev-realisation/validate-dev-realisation.py:38-42 | rule 004 allows exactly the nine classifications, by name |
| DevSweep.GroupsPartition | tools/validate-dev-realisation/validate-dev-realisation.py:132-172 | any grouping of the nine classifications partitions the contracts of a complete, classified sweep |
| DevSweep.SweepPartition | tools/validate-dev-realisation/validate-dev-realisation.py:245-261 | clean rules 002, 004 and 010 make the nine buckets pairwise disjoint, hold exactly the contracts of the map, and add up to the number of contract files |
| DevSweep.RepeatedEntryUnseen | tools/validate-dev-realisation/validate-dev-realisation.py:258-260 | listing a contract once more in its bucket stays unreported although the list lengths then exceed the number of contract files |
| DevSweep.ListsAddUpIff | tools/validate-dev-realisation/validate-dev-realisation.py:245-261 | where rules 002, 004 and 010 are clean the lengths of the nine lists add up to the number of contract files if and only if no bucket lists a contract twice, and are larger otherwise |
| ExhaustionSummary.SweepByClass | tools/validate-dev-exhaustion-bridge/validate-dev-exhaustion-bridge.py:91-95 | the grouping holds the contracts of every classification; a missing member raises |
| ExhaustionSummary.Rule004 | tools/validate-dev-exhaustion-bridge/validate-dev-exhaustion-bridge.py:145-158 | reports exactly a differing count, unknown contracts and contradicted classifications, each once and in order |
| ExhaustionSummary.SweepOfLastRow | tools/validate-dev-exhaustion-bridge/validate-dev-exhaustion-bridge.py:148 | dispositions are compared with the classification of the last row about the contract |
| ExhaustionSummary.Rule005 | tools/validate-dev-exhaustion-bridge/validate-dev-exhaustion-bridge.py:161-175 | each of its three findings appears exactly when its condition fails, once and in order |
| ExhaustionSummary.Rule006 | tools/validate-dev-exhaustion-bridge/validate-dev-exhaustion-bridge.py:178-193 | reports exactly the backlogs that are missing or differ from the sweep, each once and in order |
| ExhaustionSummary.BackloggedByName | tools/validate-dev-exhaustion-bridge/validate-dev-exhaustion-bridge.py:39-45 | rule 006 is clean exactly when each backlog, by its name, holds the contracts of the classification that belongs to it, and the leftovers those deprecated or rejected |
| ExhaustionSummary.SummaryPartition | tools/validate-dev-exhaustion-bridge/validate-dev-exhaustion-bridge.py:161-193 | clean rules make realised items, five backlogs and deprecated-or-rejected one partition of the contracts, with the non-realised items exactly all but the first |
| ExhaustionSummary.DocumentsAgree | tools/validate-dev-exhaustion-bridge/validate-dev-exhaustion-bridge.py:178-193 | beside a clean triage document, rules 005 and 006 are silent exactly when the summary's lists are the triage document's buckets and the non-realised items the rest |
| ExhaustionSummary.DispositionsCoverIffDistinct | tools/validate-dev-exhaustion-bridge/validate-dev-exhaustion-bridge.py:145-158 | where rule 004 is clean every contract has its disposition exactly when none is repeated |
| ExhaustionSummary.DispositionsMayOmit | tools/validate-dev-exhaustion-bridge/validate-dev-exhaustion-bridge.py:145-158 | a summary that omits a contract and passes rule 004 |
| InvalidationMap.Findings.Add | tools/validate-evidence-invalidation/validate-evidence-invalidation.py:130-135 | a finding is appended, the earlier ones stay |
| InvalidationMap.ClassChecksByTag | tools/validate-evidence-invalidation/validate-evidence-invalidation.py:159-167 | the dictionary holds a check under a tag exactly when some input class carries the tag and lists the check |
| InvalidationMap.ValidateRequiredChecks | tools/validate-evidence-invalidation/validate-evidence-invalidation.py:279-298 | the findings added are exactly those of requirements no input class meets |
| InvalidationMap.ValidateGlobalPolicies | tools/validate-evidence-invalidation/validate-evidence-invalidation.py:181-201 | the findings added are exactly those of broken policies |
| InvalidationMap.ValidateStateModel | tools/validate-evidence-invalidation/validate-evidence-invalidation.py:204-214 | silent exactly when all states are listed and the failure states are all but current and historical |
| InvalidationFixtures.SilentIff | tools/validate-evidence-invalidation/validate-evidence-invalidation.py:181-298 | the modelled rules are silent exactly when the ten policies have their required values, all states are listed and all but two do not pass, the nine disclaimers are made, and every required check is listed by a class with its tag |
| InvalidationFixtures.RequirementsByName | tools/validate-evidence-invalidation/validate-evidence-invalidation.py:279-298 | each of the nineteen requirements is reported, under its rule, exactly when no class meets it |
| InvalidationFixtures.ApplyFixture | tools/validate-evidence-invalidation/validate-evidence-invalidation.py:422-466 | the mutated map and the paths of every fixture, or the exception its loosely typed members raise |
| InvalidationFixtures.StrippedUncovers | tools/validate-evidence-invalidation/validate-evidence-invalidation.py:430-461 | after a check-removal fixture no input class covers the check under a stripped tag, whatever the classes hold |
| InvalidationFixtures.OnlyTheCheckIsLost | tools/validate-evidence-invalidation/validate-evidence-invalidation.py:430-461 | whatever classes keep their checks in, a tag keeps every other check, and keeps this one exactly when some class listing it under that tag escapes the guard |
| InvalidationFixtures.CoveredAfter | tools/validate-evidence-invalidation/validate-evidence-invalidation.py:430-461 | a check is covered after stripping exactly when some class with the tag escapes the guard and lists it, or passes the guard and yields it, list or not, the stripped check aside |
| InvalidationFixtures.AddsNothingIff | tools/validate-evidence-invalidation/validate-evidence-invalidation.py:430-461 | stripping adds no covered check exactly when every other check that a class passing the guard keeps outside a list is covered already |
| InvalidationFixtures.KeysBecomeChecks | tools/validate-evidence-invalidation/validate-evidence-invalidation.py:430-433 | a map on which stripping one check silences the complaint about another |
| InvalidationFixtures.DefectIsFound | tools/validate-evidence-invalidation/validate-evidence-invalidation.py:422-466 | every fixture that removes or overturns something leaves a finding of its expected rule on every base map |
| InvalidationFixtures.SelfTest | tools/validate-evidence-invalidation/validate-evidence-invalidation.py:478-487 | a round completes exactly when the fixture applies and the planted paths can be reported; it passes for every removal, and for a planted path exactly when nothing places it or the fallback policy is broken |
| InvalidationClassify.ClassifyOne | tools/validate-evidence-invalidation/validate-evidence-invalidation.py:342-371 | the nested loops return the classification of the first selecting class |
| InvalidationClassify.FirstIsFirst | tools/validate-evidence-invalidation/validate-evidence-invalidation.py:344-361 | that class selects the path and none before it does; there is none exactly when no class selects it |
| InvalidationClassify.ClassifyPaths | tools/validate-evidence-invalidation/validate-evidence-invalidation.py:374-400 | every path is classified, rule 004 names exactly the unplaced ones in order, families, fallback modes and reasons are those of the rows; modes that cannot be sorted and policies that are no object raise |
| InvalidationClassify.AppendedClasses | tools/validate-evidence-invalidation/validate-evidence-invalidation.py:342-371 | classes added at the end never reclassify a path and decide exactly the unclassified ones |
| InvalidationClassify.UnselectedPath | tools/validate-evidence-invalidation/validate-evidence-invalidation.py:362-371 | a path no class selects is unclassified, carries no tags, affects all proof and evidence families and asks for a full rerun |
| InvalidationClassify.UnselectedWidens | tools/validate-evidence-invalidation/validate-evidence-invalidation.py:362-371 | a report gives a reason for ambiguity exactly when no class selects some path, and affects every proof exactly then or when a first selecting class asks for it |

## Left out

- SHA-256, JSON parsing, glob matching, UTF-8 validity, white-space stripping and the string rewriter of the comparator are
  parameters; nothing is assumed of them beyond what a lemma states.
- Numbers in generated YAML are kept as their printed text; which characters outside ASCII are letters or digits is open.
- JSON documents hold no NaN or infinity; objects of `JsonValue` have no key order.
- PortPolicy.ValidatePortPolicy: findings are a set and groups may be visited in any order; rules 020 to 028 look at one
  record at a time and are not modelled.
- ComposeModel.ReportMissingDependencies: findings are a set; rules 001 to 016 are not modelled.
- BootstrapMappings.CheckBootstrapMappings: findings are a set and records may be visited in any order; rules 009 (stale
  index) and 013 (proof posture) are not modelled, and capability domains or references that are JSON values other than
  strings count as missing.
- BootstrapMappings.ExpectedMappingIndex: the counts only, not the digests and sorted rows of the index.
- DevSweep.Rule002: whether a contract path resolves is an input per row; a null document member in place of a list is not
  modelled.
- InvalidationClassify.ClassifyPaths: the sorted lists of the report are sets.
- InvalidationFixtures.SelfTest: models the global policy, state, non-claim and required-check parts of the map validation;
  the remaining parts only add findings of rules 001, 002, 003 and 010.
- TreeInventory.LinesArePaths: speaks of paths with plain components; lines that git prints quoted are taken as they are.
- YamlAlphabets.PrintsApartIff: an alphabet of a single key has the direction without collisions only.
- TreeWalk.WalkFiles: a linked directory shows the entries behind it, so a tree whose links form a cycle is not represented;
  the walk does not enter links below its root.
- SnapshotCompare.CompareSnapshots: the guardrail findings, which look at one snapshot alone, are an input.
- ProofAnchors.RemoteAnchorCommits: the listing arrives as lines; splitting the output at line ends is not modelled.
- `int()` in patch subscripts accepts ASCII digits, underscores and surrounding space only.
- JsonHeap.DeepCopy: documents in which parts are shared are not copied by the tools, since parsed JSON has none.
- Aggregate.RunFamilies: printing, timing and the splitting of command lines; process results are inputs.
- Envelope-field checks, phrase scans, secret and metadata rules: long constant lists settled by reading one branch.
