# fss: the size walker and its grouping, in Dafny

fss reports how much disk space a set of paths uses, grouped by one of four
keys: the file extension, a coarse file type (Image, Video, Document, ...),
the file name, or the name of the parent directory. A hard-linked file is
counted only once.

This project models the sequential core of fss:

- **The receiver of `Walk::run`** (`receiver.dfy`, module `Receiver`).
  - `ReceiveAll` is the receiver's loop as an imperative method. It keeps
    `total`, the set of seen `ids`, the `sizes` map and the error list.
  - It is proved to compute `Receive`, a fold of `Step` over the messages
    in arrival order.
  - The lemmas state what the fold promises: hard-link deduplication (one
    counted entry per id), the one group a counted entry adds to, errors
    kept in arrival order, the total equal to the sum of the groups, a total
    that does not depend on the arrival order, and groups that do not depend
    on it when no id is shared.
  - The lemmas also show that with a shared id the credited group depends
    on the order.
- **`walk`** (`walk.dfy`, module `Walk`), as a recursive function over
  a file-system tree given as a value.
  - A `Node` is one of: an unstatable path, a non-directory with an optional
    id and a size, an unreadable directory, or a readable directory with its
    listing.
  - `ListChildren` is the push loop that collects a directory's children.
  - The walk is checked against two independent descriptions. One is a
    reachability description: every message is the report of a node
    reachable from the root, and every such report is emitted. The other is
    a count of files, failures and bytes.
- **The group keys** (`keys.dfy`, module `GroupKeys`, over `paths.dfy` and
  `ascii.dfy`): `get_ext`, `get_filename`, `get_parent_directory`, and the
  key each `GroupBy` mode files an entry under. `Paths` defines
  `file_name`, `extension`, `parent` and `join` on a path that is already
  split into components, as Rust's `std::path` defines them.
- **The file-type table** (`groups.dfy`, module `Groups`): `FileType`, its
  `Display`, the `FILETYPE_MAP` table as the map its `insert` calls build,
  `get_filetype` and `from_path`.
  - The table's 169 `insert` calls are grouped into runs of one category,
    in source order.
  - The lemmas prove that no key is inserted twice, that every key is
    non-empty, contains no upper-case ASCII letter and has at most 7
    characters, and therefore what each lookup returns.
- **`parse_group_by` and `GroupBy`** (`cli.dfy`, module `Cli`).
- **A worked example** (`sample.dfy`, module `Sample`): a directory holding
  `a.txt` (100 bytes) and `b.jpg` (200 bytes). It is grouped by extension
  (`{txt: 100, jpg: 200}`) and by type (`{Document: 100, Image: 200}`),
  with total 300 both times.

Where the documented behaviour of fss and its code differ, the model follows
the code:

- Type mode keys an entry by `get_filetype(get_ext(path))` (src/walk.rs:144).
  It does not use `from_path`. So a file without an extension is always
  "Other" in Type mode, even when its bare name, lower-cased, is a table key.
  A file named `PY` is `Code` for `from_path`, but it is filed under "Other"
  (`GroupKeys.TypeKeyIgnoresDotlessName`).
- The total equals the sum of the groups for every message sequence, hard
  links or not, not only for trees without hard links: a skipped duplicate
  changes neither side (`Receiver.Receive`).

## Model

| member | source | states |
|---|---|---|
| Receiver.ReceiveAll | src/walk.rs:125-176 | the receiver loop returns the total, groups and errors of the fold `Receive` of its messages in arrival order |
| Receiver.Run | src/walk.rs:121-185 | `run` returns the receiver's results on the messages the walk of the roots sends |
| Receiver.AddSize | src/walk.rs:145-148 | `entry(key).and_modify(+= size).or_insert(size)`: the key is present afterwards, holds its old value plus `size` (or `size` when new), and every other key keeps its value |
| Receiver.ReceiveIds | src/walk.rs:134-138 | the seen set is exactly the ids carried by the size entries received |
| Receiver.DuplicateIsSkipped | src/walk.rs:134-138 | a size entry whose id an earlier entry carried leaves total, groups, ids and errors unchanged |
| Receiver.FreshEntryIsCounted | src/walk.rs:134-168 | an entry with no id, or an unseen id, adds its size to the total, adds it to its own group (a new key starts at the size), leaves every other group and the errors unchanged, and adds its id |
| Receiver.ErrorIsAppended | src/walk.rs:170-172 | an error message is appended to the errors and changes nothing else |
| Receiver.ReceiveErrors | src/walk.rs:131-175 | the errors returned are exactly the error messages, in arrival order |
| Receiver.Step | src/walk.rs:131-172 | one message: the total never decreases and the seen ids only grow; an error message is appended to the errors and any other message leaves them alone; a total equal to the sum of the groups stays equal to it |
| Receiver.Receive | src/walk.rs:126-175 | after any messages, hard links or not, the total is the sum of the values in the groups map |
| Receiver.SumValuesAddSize | src/walk.rs:141-168 | adding a size to one key raises the sum of the groups by exactly that size |
| Receiver.ReceiveTotalIsDeduplicatedBytes | src/walk.rs:133-141 | the total is the bytes of the messages that remain once every repeated id is dropped |
| Receiver.ReceiveSizesAreDeduplicatedKeyBytes | src/walk.rs:133-168 | the groups are exactly the keys of the deduplicated size entries, and each holds the bytes of the deduplicated entries with that key |
| Receiver.NoSharedIdsDeduplicated | src/walk.rs:134-138 | when no id is shared, no entry is skipped |
| Receiver.DeduplicatedIds | src/walk.rs:134-138 | dropping every repeated id keeps exactly one entry per id: the deduplicated messages carry the same ids, and no two of them share one |
| Receiver.ReceiveTotalByIds | src/walk.rs:133-141 | when entries with the same id have the same size, the total is the bytes of the entries without id plus, once per id, the size of that id |
| Receiver.ReceiveTotalOrderIndependent | src/walk.rs:131-141 | when entries with the same id have the same size, the total is the same for every arrival order of the messages, hard links or not |
| Receiver.ReceiveSizesWithoutHardLinks | src/walk.rs:133-168 | when no id is shared, each group holds the bytes of every size entry whose key it is |
| Receiver.WalkWithoutHardLinks | src/walk.rs:121-185 | for a tree without hard links, the total is the bytes of all files reached, the groups hold those bytes by key, and there is one error per failed path |
| Receiver.SumByPermutation | src/walk.rs:131-172 | a sum over messages does not depend on their order |
| Receiver.ReceiveSizesOrderIndependent | src/walk.rs:131-168 | without shared ids, the groups do not depend on the order the messages arrive in |
| Receiver.ReceiveErrorsOrderIndependent | src/walk.rs:170-172 | the errors returned from two orders of the same messages are the same up to order |
| Receiver.ReceiveOrderIndependent | src/walk.rs:131-175 | without shared ids, total and groups are the same for every arrival order, and the errors agree up to order |
| Receiver.HardLinkFirstCounted | src/walk.rs:134-141 | of two entries with the same id, the first is counted and the second skipped |
| Receiver.HardLinkCreditDependsOnOrder | src/walk.rs:134-168 | two hard links with different keys credit the group of whichever arrives first; the total is the file's size once either way |
| Walk.Children | src/walk.rs:38-44 | a listing contributes at most one child per item, and the children together are smaller than the listing, so the walk ends |
| Walk.ListChildren | src/walk.rs:38-44 | the push loop collects exactly `Children`: the readable listing items, in order, joined to the directory's path |
| Walk.ChildrenSound | src/walk.rs:41-42 | every child comes from a readable listing item |
| Walk.ChildrenComplete | src/walk.rs:41-42 | every readable listing item becomes a child |
| Walk.InChildren | src/walk.rs:41-42 | a child is exactly a readable listing item joined to the directory's path |
| Walk.BadEntryIsDropped | src/walk.rs:41 | `flatten` drops an unreadable listing item wherever it is, and the walk sends nothing for it |
| Walk.Visit | src/walk.rs:32-66 | an unstatable path sends exactly one `NoMetadataForPath`, a non-directory exactly one `SizeEntry` with its id, path and size, an unreadable directory exactly one `CouldNotReadDir` and nothing from beneath it |
| Walk.Walk | src/walk.rs:30-31 | a list of paths none of which is a readable directory sends one message per path, its own report, in the order of the list |
| Walk.WalkAppend | src/walk.rs:30-31 | walking two lists of paths sends the messages of the first list, then those of the second |
| Walk.InWalk | src/walk.rs:30-31 | a message of a walk over several paths is a message of one of them |
| Walk.VisitSound | src/walk.rs:30-68 | every message sent is the report of a node reachable from the path walked; a readable directory never reports itself |
| Walk.VisitComplete | src/walk.rs:30-68 | every reachable node that reports something has its report among the messages |
| Walk.VisitReportsReachable | src/walk.rs:30-68 | a message is sent exactly when some reachable node reports it |
| Walk.VisitTally | src/walk.rs:30-68 | one message per non-directory and per failed path, and the sizes sent add up to the bytes of the non-directories |
| Walk.WalkTally | src/walk.rs:30-68 | the same count for a list of paths |
| Walk.ChildrenTally | src/walk.rs:41-42 | the children of a listing count the same as its readable items |
| Walk.VisitStaysBelow | src/walk.rs:30-68 | every message is about the walked path or a longer path below it; only a readable directory sends messages about other paths |
| Paths.Parent | src/walk.rs:89-91 | `parent` is present exactly when the path is non-empty and does not end in the root, and adding the last component back gives the path |
| Paths.Join | src/walk.rs:42 | a listed entry's path has the entry's name as file name and the directory as parent |
| Paths.LastDot | src/walk.rs:71-73 | the index found holds a dot and no later index does; no index holds a dot when none is found |
| Paths.NameExtension | src/walk.rs:71-73 | no extension for "..", a name without a dot, or a name whose only dot is first; otherwise the text after the last dot, which holds no dot |
| Paths.NameExtensionOfLowercase | src/walk.rs:71-76 | lower-casing a name keeps whether it has an extension and lower-cases the extension |
| Paths.ExtensionCaseInsensitive | src/walk.rs:71-76 | names that differ only in case have extensions that differ only in case |
| Ascii.ToLowercaseIsLowercase | src/walk.rs:76 | the lower-cased string has no upper-case letter |
| Ascii.ToLowercaseIdempotent | src/walk.rs:76 | lower-casing twice is lower-casing once |
| GroupKeys.GetExt | src/walk.rs:70-77 | `get_ext` contains no upper-case ASCII letter, has the extension's length, and is "" exactly when there is no extension or an empty one |
| GroupKeys.GetExtCaseInsensitive | src/walk.rs:70-77 | `FILE.TXT` and `file.txt` give the same extension key |
| GroupKeys.GetExtExamples | src/walk.rs:70-77 | "a.TXT" gives "txt", "x.tar.gz" gives "gz", and "Makefile", ".bashrc", ".." and "a." give "" |
| GroupKeys.GetFilename | src/walk.rs:79-86 | a non-empty `get_filename` is the last component of the path, which is a name; "" exactly when the path ends in no name or in an empty one |
| GroupKeys.GetFilenameOfJoin | src/walk.rs:79-86 | `get_filename` of a listed entry is its name; a path ending in the root, in "..", or empty gives "" |
| GroupKeys.GetParentDirectory | src/walk.rs:88-97 | the next-to-last component when it is a name and the path does not end in the root; a non-empty key is always that component |
| GroupKeys.GetParentDirectoryOfJoin | src/walk.rs:88-97 | `get_parent_directory` is the name of the listing directory; an entry under the root, under ".", or given as a bare name gives "" |
| GroupKeys.GroupKey | src/walk.rs:142-168 | the key per mode: in Type mode one of the category names, in Extension mode a key without upper-case ASCII letters, in FileName mode the path's file name or "", in Directory mode the next-to-last component or "" |
| GroupKeys.TypeKeyOfExtension | src/walk.rs:143-149 | in Type mode a path without an extension is filed under "Other" |
| GroupKeys.TypeKeyIgnoresDotlessName | src/walk.rs:143-149 | Type mode looks only at the extension: a file named "PY" is `Code` for `from_path` but is filed under "Other" |
| GroupKeys.GroupKeyOfJoin | src/walk.rs:142-168 | the key of each mode for a listed entry: its extension key, its name, its directory's name, or its extension's category |
| Groups.DisplayName | src/groups.rs:221-225 | Display prints a non-empty word starting with an upper-case letter, and prints "Other" exactly for `Other` |
| Groups.DisplayNameInjective | src/groups.rs:221-225 | Display gives each category its own name ("GenomicData", "Other", ...), so categories are distinct groups in Type mode |
| Groups.InsertAll | src/groups.rs:38-215 | a run of `insert` calls adds exactly its keys, each holding the run's category, and leaves every other key as it was |
| Groups.BuildMap | src/groups.rs:37-217 | the keys of the map the `insert` calls build are exactly the keys some call inserts |
| Groups.BuildMapLookup | src/groups.rs:37-217 | a key of the built table holds the category of the last run that inserts it; no later run inserts it |
| Groups.FiletypeInsertsWellFormed | src/groups.rs:37-217 | no key of the table is inserted twice, every key is non-empty and contains no upper-case ASCII letter, and no key maps to `Other` |
| Groups.GetFiletype | src/groups.rs:243-247 | the lookup does not lower-case: only a non-empty string with no upper-case ASCII letter and at most 7 characters can get a category other than `Other` |
| Groups.GetFiletypeOfKey | src/groups.rs:243-247 | a key named by an `insert` call gets that call's category |
| Groups.GetFiletypeOfNonKey | src/groups.rs:243-247 | `get_filetype` gives `Other` exactly for the strings no `insert` call names |
| Groups.FiletypeKeysLowercase | src/groups.rs:40-215 | every table key is non-empty and contains no upper-case ASCII letter |
| Groups.FiletypeKeysShort | src/groups.rs:40-215 | no table key is longer than 7 characters |
| Groups.GetFiletypeKnownKeys | src/groups.rs:40-118 | "txt" is `Document`, "jpg" `Image`, "rs" and "py" `Code` |
| Groups.GetFiletypeUnknownKeys | src/groups.rs:243-247 | "" and "JPG" are `Other` |
| Groups.FromPath | src/groups.rs:230-240 | `from_path` looks up the lower-cased extension when the path has one, else the lower-cased file name; a path that ends in no name (the root, "..") is `Other` |
| Groups.FromPathCaseInsensitive | src/groups.rs:230-240 | `from_path` gives the same category for names that differ only in case |
| Groups.FromPathOfDotlessName | src/groups.rs:230-240 | a name without a dot is looked up whole and lower-cased: "PY" is `Code`, "Makefile" is `Other` |
| Groups.FromPathOfExtension | src/groups.rs:230-240 | the extension is lower-cased before the lookup: "./a.JPG" is an `Image` |
| Cli.ParseGroupBy | src/cli.rs:76-89 | succeeds exactly when the lower-cased input is a prefix of some option name; the result is the first such name in the order extension, type, filename, directory; otherwise the fixed error message |
| Cli.SelectsAtMostOne | src/cli.rs:78-85 | the option names have distinct first letters, so a non-empty input is a prefix of at most one |
| Cli.ParseGroupByOfPrefix | src/cli.rs:76-89 | a non-empty prefix of a name, in any case, parses to that name's variant |
| Cli.ParseGroupByEmpty | src/cli.rs:78-79 | the empty input gives `Extension` |
| Cli.ParseGroupByCaseInsensitive | src/cli.rs:77 | inputs equal up to case parse alike ("TYPE" and "type") |
| Cli.ParseGroupByOptionName | src/cli.rs:76-89 | each full option name parses back to its variant |
| Cli.ParseGroupByDefault | src/cli.rs:25 | the default argument "extension" parses to `Extension`, the enum's `#[default]` |
| Cli.ParseGroupByExamples | src/cli.rs:76-89 | "e", "T", "file" and "DiR" select their variants; "types" and "x" are errors |
| Sample.SampleWalk | src/walk.rs:30-68 | the walk of a directory holding "a.txt" and "b.jpg" sends their two size entries |
| Sample.SampleByExtension | src/walk.rs:121-185 | grouped by extension: {txt: 100, jpg: 200}, total 300, no errors |
| Sample.SampleByType | src/walk.rs:121-185 | grouped by type: {Document: 100, Image: 200}, total 300, no errors |

## Left out

- Concurrency: the parallel fan-out of `walk`, the unbounded channel, the receiver thread and the thread pool (src/walk.rs:31, 122-125, 178-184). The model sends the messages one path after another, in listing order, which is one order the channel can deliver. The total is proved independent of the order (`Receiver.ReceiveTotalOrderIndependent`), and so are the groups and errors when no id is shared (`Receiver.ReceiveOrderIndependent`).
- File-system I/O: `symlink_metadata` and `read_dir` are replaced by the `Node` tree given as a value; a listing item whose read fails is `BadEntry`.
- `generate_unique_id` and `FilesizeType::size` are not part of this model: the id is an abstract `Option<UniqueId>` and the size an abstract `nat` stored in the tree.
- `SizeFilter` and the display of the groups (src/main.rs) are not part of this model; filters only choose which groups are printed.
- The conversion of OS strings to UTF-8 (`to_str().unwrap_or_default()`): path components are taken as valid strings, so that failure path is not modelled.
- Receiver.ReceiveSizesOrderIndependent: the groups are proved independent of the order only for messages that share no id. With hard links they do depend on it: the group of whichever linked path arrives first is credited (`Receiver.HardLinkCreditDependsOnOrder`).
- Receiver.ReceiveTotalOrderIndependent: requires that entries with the same id carry the same size. On a real file system they do, since they are one file, but the `Node` tree does not tie a size to an id, and two entries with one id and sizes 1 and 2 give different totals in their two orders.
- Receiver.ReceiveAll: `total += size` and `*s += size` are on unbounded `nat`; 64-bit overflow is not modelled.
- Splitting a raw path string into components is not modelled; a path is given as its sequence of components (root, ".", "..", names).
- src/main.rs, with its own stale `GroupBy` without `Directory`, is not part of this model.
- `FormatOption::format`, `STYLES` and the clap attributes of src/cli.rs, which are formatting and configuration.
- The second `GroupBy` enum in src/groups.rs:8-21 is the same as the one in src/cli.rs and is modelled once, as `Cli.GroupBy`.
- The commented-out match-based `get_filetype` (src/groups.rs:249-431), which is dead code.
