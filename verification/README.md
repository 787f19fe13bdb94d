# Local wildcard batches of s5cmd, modelled in Dafny

s5cmd expands one source argument of a local batch command into per-file
sub-jobs. The source argument is either an existing directory or a glob. The
model covers the two batch entry points of `core/op_local.go`:

- `BatchLocalCopy` (local `cp`/`mv` of many files);
- `BatchLocalUpload` (upload of many local files).

Both entry points share one shape:

1. the sub-command is derived once ("cp" or "mv", followed by the pass-through
   parameters);
2. walk mode or glob mode is chosen from a stat of the source;
3. the trim prefix is computed, and for copy in walk mode the glob of the
   directory's entries;
4. a producer emits matched file paths and always ends with one end-of-stream
   marker;
5. a consumer turns every matched path into a sub-job whose destination is the
   destination argument followed by the parents-mode or flatten-mode name.

The Go channel becomes the finished sequence of items the producer sends,
`Item = Match(path) | EOS`. The filesystem becomes an abstract tree:
`Node = File | Directory(children) | Unreadable(reason)`, where `Unreadable` is an
entry the walk cannot read. The host's glob becomes an ordered list of matches
given as input (`Host.glob`). The stat of the source is an input as well
(`Host.srcStat`).

Modules:

- `Outcomes` (outcomes.dfy): `Option` and `Result`.
- `Paths` (paths.dfy): `strings.IndexAny`, `strings.Index`, `path.Dir`,
  `filepath.Base` and `filepath.Join` on '/'-separated paths.
- `FileTree` (file_tree.dfy): the tree, `filepath.Walk` driven by the batch
  callback, and a reference listing of every entry in walk order.
- `Naming` (naming.dfy): trim prefix, walk-mode glob start, parents and
  flatten names.
- `LocalBatch` (local_batch.dfy): options, sub-command, plan, both producers,
  the consumer, and `BatchLocalCopy` / `BatchLocalUpload`.
- `BatchProperties` (batch_properties.dfy): what each mode emits, the failure
  cases, copy against upload over one directory, and a worked example.

In these details the model follows the code:

- In walk mode the upload batch walks the whole directory whatever the
  recursive flag says. The copy batch in walk mode globs the source followed
  by "/*" and descends into a matched subdirectory only with the recursive
  flag. That glob lists the directory's entries only when the source holds
  no glob character; otherwise the host reads the source part as a pattern
  too. The model takes whatever the host's glob answers.
- A source that is a directory whose listing cannot be read is still walk
  mode. The host's glob hides the read error and reports no entries, so the
  copy batch succeeds having sent only the marker. The upload batch's walk
  fails with the read error (`BatchProperties.UnreadableDirectorySplitsBatches`).
- The walk-mode trim prefix is `path.Dir` of the source, not the source with a
  separator added. So the source "dir" trims nothing, "dir/" trims "dir/", and
  "a/dir" trims "a/": there the directory's own name stays in parents-mode
  names.
- Only the copy consumer creates destination directories. The upload consumer
  creates none.
- Any source whose directory part is "/" gets the trim prefix "//": `path.Dir`
  yields "/" and a separator is still appended. "/x?" and "/tmp" are two such
  sources. No match starts with "//", so parents naming keeps the full
  absolute path. The model keeps this behaviour (`Naming.RootGlobKeepsAbsolutePath`).

## Model

| member | source | states |
|---|---|---|
| `Paths.IndexAny` | core/op_local.go:58-61 | The result is -1 exactly when no character of the source is a glob character; otherwise it is the position of the first such character. |
| `Paths.Index` | core/op_local.go:126 | The result is the first position where the prefix occurs in the path, or -1 exactly when it never occurs. |
| `Paths.IndexZeroIffPrefix` | core/op_local.go:215 | `strings.Index(p, t) == 0` holds exactly when `t` is a prefix of `p`. |
| `Paths.Dir` | core/op_local.go:69 | The result is "." when there is no separator, and "/" when only separators come before the last element. Otherwise it is the longest prefix without a trailing separator that is followed only by separators up to the last one. |
| `Paths.Base` | core/op_local.go:219 | The result is "." for the empty path and "/" for a path of separators. Otherwise it is a non-empty, separator-free final element of the path once trailing separators are dropped. |
| `Naming.TrimPrefixOf` | core/op_local.go:69-74 | The trim prefix is empty exactly when the input has no separator or its directory part is ".". It is "//" exactly when only separators precede the last element. Otherwise it is a prefix of the input of at least two characters that ends with a separator not preceded by another, and only separators follow it up to the input's last separator. |
| `Naming.DirectoryPartUnique` | core/op_local.go:69 | At most one non-empty prefix of a path ends in a non-separator and is followed only by separators up to the path's last separator, so the directory part `path.Dir` yields is determined. |
| `Naming.TrimPrefixIsDirectoryPart` | core/op_local.go:69-74 | Any prefix that ends with a separator not preceded by another, and after which only separators come up to the last separator, is the trim prefix. The one exception is "./", whose directory part "." trims nothing. |
| `Naming.GlobStart` | core/op_local.go:63-68 | The walk-mode glob starts with the source and ends with "/*". It is one character longer than the source when the source already ends with a separator, so that separator is not doubled, and two characters longer otherwise. |
| `Naming.ParentsName` | core/op_local.go:124-128 | If the path starts with the trim prefix, then trim prefix + name equals the path. Otherwise the name is the path unchanged. |
| `Naming.FlattenName` | core/op_local.go:129-131 | For any path that is not all separators, the flatten name is the whole final element of the path once trailing separators are dropped: non-empty, separator-free, and either the whole trimmed path or preceded there by a separator. |
| `Naming.DestName` | core/op_local.go:123-131 | With parents set, the name is the path with the trim prefix removed when the path starts with it, and the whole path otherwise. Without it, the name is the whole final element of the path once trailing separators are dropped: non-empty, separator-free, and preceded by a separator unless it is the whole trimmed path. |
| `Naming.ParentsWithEmptyPrefix` | core/op_local.go:213-217 | With an empty trim prefix, the parents-mode name is the discovered path itself. |
| `Naming.FlattenIgnoresTrimPrefix` | core/op_local.go:218-220 | The flatten name depends on the discovered path alone, so it is the same for any trim prefix and on every run. It holds no separator. |
| `Naming.ParentsNameOfGlobMatch` | core/op_local.go:62-74 | For a match that begins with the glob's literal part, trim prefix + parents name reconstructs the match. The root case ("//") is excluded. |
| `Naming.RootGlobKeepsAbsolutePath` | core/op_local.go:165-170 | For a glob whose directory part is "/", the trim prefix is "//" and "/etc" keeps its full name. One level down, the directory is stripped. |
| `Naming.NamingExample` | core/op_local.go:123-131 | In a tree rooted at "/a/b/", the file "/a/b/c/d.txt" is named "c/d.txt" in parents mode and "d.txt" in flatten mode. |
| `FileTree.WalkFollowsEntries` | core/op_local.go:177-187 | List every entry at or beneath the root in walk order. The walk emits exactly the plain files before the first unreadable entry, and fails with that entry's reason. With no unreadable entry it succeeds. |
| `FileTree.WalkChildrenFollowsEntries` | core/op_local.go:101-110 | The same for a directory's children walked in order: the first error stops the walk, and no child after it is visited. |
| `FileTree.BeforeFaultAppend` | core/op_local.go:101-113 | Over a listing cut in two, the first fault is the first part's if it has one. The files before it are the first part's files, followed by the second part's files when the first part is clean. |
| `FileTree.FaultReasonSound` | core/op_local.go:102-104 | A listing has a fault exactly when one of its entries is unreadable, and the fault is the reason of such an entry. |
| `FileTree.Walk` | core/op_local.go:177-187 | A walk that ends without error has emitted exactly the plain files of the reference listing, in order. Only a directory root can make a walk fail. |
| `FileTree.WalkChildren` | core/op_local.go:101-110 | Walking a directory's children without error emits exactly the plain files of their reference listing, in order. Only a non-empty list of children can fail. |
| `FileTree.BeforeFaultIsPrefix` | core/op_local.go:111-113 | The files emitted before the first fault are a prefix of all the files, and are all of them when there is no fault. |
| `FileTree.WalkEmitsEveryFile` | core/op_local.go:176-187 | A readable tree is walked to the end without error, and every plain file beneath the root is emitted in walk order. |
| `FileTree.WalkEmitsOnlyFiles` | core/op_local.go:101-110 | Every emitted path is a plain file at or beneath the root. A failed walk has emitted a prefix of the full listing and reports the reason of an unreadable entry. The walk succeeds exactly when the tree is readable. |
| `LocalBatch.SubCommand` | core/op_local.go:46-50 | The sub-command starts with "mv" exactly when delete-source is set, and with "cp" exactly when it is not. The pass-through parameters follow. |
| `LocalBatch.MakePlan` | core/op_local.go:52-74 | Walk mode is `IsWalkMode`: the stat of the source succeeds and shows something other than a plain file, so an unreadable directory counts. Mode selection fails with not-a-glob exactly when the source is not a directory and has no glob character. In glob mode the glob is the source and the trim prefix is that of the source's part before its first glob character, so it holds no glob character. In walk mode the trim prefix is that of the source itself; the copy glob is the walk-mode glob start of the source, and upload walks the source. Every trim prefix is empty or ends with a separator, and is a prefix of the source or "//". |
| `BatchProperties.ModeChoiceDecidesInputs` | core/op_local.go:52-53 | Over an existing directory, readable or not, the upload walks it and never consults the glob; an unreadable one fails the upload at once with its reason, sending only the marker. The copy never fails as not-a-glob there. Otherwise it makes no difference to either batch whether the stat failed or showed a plain file. |
| `LocalBatch.Close` | core/op_local.go:79-81 | The producer's deferred send: the emitted paths are followed by exactly one end-of-stream marker, and the producer's error is kept. |
| `LocalBatch.EmitMatches` | core/op_local.go:95-116 | The copy loop over the glob matches fails only with the recursive flag, and then with the error of walking one of the matched directories. |
| `LocalBatch.NonDirPaths` | core/op_local.go:197-203 | The upload glob loop emits a path exactly when it belongs to a match that is not a directory. |
| `BatchProperties.NonDirPathsAppend` | core/op_local.go:197-203 | The upload glob loop keeps match order: the non-directories of two runs of matches are those of the first run followed by those of the second. |
| `LocalBatch.CopyProduce` | core/op_local.go:78-116 | The copy producer always ends its stream with exactly one marker. A glob that matches nothing sends only the marker: an error (no-match) in glob mode, success in walk mode. A failing glob is the error, with only the marker sent. Other I/O errors come only from walks under the recursive flag; without it a non-empty match list never fails. |
| `LocalBatch.UploadProduce` | core/op_local.go:172-205 | The upload producer always ends its stream with exactly one marker. In walk mode it succeeds exactly when the source tree is readable. In glob mode it fails with an I/O error exactly when the glob fails, with the no-match error exactly when nothing matches, and otherwise succeeds. |
| `LocalBatch.Received` | core/op_local.go:117-121 | The consumer reads the matched paths in order up to the first end-of-stream marker, and takes nothing from the marker. |
| `LocalBatch.MakeSubJob` | core/op_local.go:133-139 | A sub-job takes the matched path as source and the batch's sub-command, operation and options. Its destination is the destination argument followed by the parents name (the path less the trim prefix, or the whole path) or by a separator-free flatten name. Exactly copy sub-jobs carry a directory to create, the destination's directory; upload sub-jobs (lines 222-224) carry none. |
| `LocalBatch.Consume` | core/op_local.go:117-139 | The consumer builds one sub-job per matched path, in order, and stops at the first end-of-stream marker, which yields no sub-job. |
| `LocalBatch.BatchLocalCopy` | core/op_local.go:43-143 | A copy fails with not-a-glob, sending nothing, exactly when the source is neither a directory nor a glob. Otherwise the stream ends with exactly one marker and there is one sub-job per match. Each sub-job carries the batch's sub-command and options, a destination under the destination argument, and its parent directory to create. |
| `LocalBatch.BatchLocalUpload` | core/op_local.go:145-228 | An upload fails with not-a-glob, sending nothing, exactly when the source is neither a directory nor a glob. Otherwise the stream ends with exactly one marker. Every sub-job is an upload that carries the batch's sub-command and options and a destination under the destination argument. |
| `BatchProperties.SourcesOfClosed` | core/op_local.go:79-81 | Whatever a producer emitted before its deferred marker is dispatched, path by path and in order, as the sources of the sub-jobs. This holds on error paths too. |
| `BatchProperties.DestinationsFollowTemplate` | core/op_local.go:123-134 | Every sub-job's destination is the destination argument followed by the destination name of its own source. |
| `BatchProperties.ParentsJobNames` | core/op_local.go:123-134 | Under parents naming each sub-job's destination is the destination argument plus a name: trim prefix + name is the source when the source starts with the prefix, and the name is the source otherwise. |
| `BatchProperties.FlattenJobNames` | core/op_local.go:129-134 | Under flatten naming each sub-job's destination is the destination argument plus the base name of its source, which holds no separator unless the source is all separators. |
| `BatchProperties.MatchHead` | core/op_local.go:96-113 | For one match, the recursive copy loop emits exactly the plain files at or beneath it that come before its first unreadable entry, and fails with that entry's reason. So it emits a prefix of those files, and all of them, without error, exactly when the match is readable. |
| `BatchProperties.RecursiveEmitsBeforeFault` | core/op_local.go:95-116 | With the recursive flag, the copy loop emits exactly the plain files listed, match after match, before the first unreadable entry beneath any match, and fails with that entry's reason. |
| `BatchProperties.NonRecursiveEmitsNonDirectories` | core/op_local.go:95-100 | Without the recursive flag, the copy loop emits exactly the non-directory matches, in order, and never fails. |
| `BatchProperties.RecursiveEmitsMatchFiles` | core/op_local.go:95-116 | With the recursive flag, the copy loop cuts the listing of all matches at its first unreadable entry. It emits a prefix of all plain files at or beneath the matches, fails exactly when a matched tree has an unreadable entry, and otherwise emits them all. |
| `BatchProperties.GlobbedChildrenWalkLikeDirectory` | core/op_local.go:63-68 | Globbing a directory's entries and walking each matched entry gives the same stream and error as walking the directory. |
| `BatchProperties.NotAGlobFailsFast` | core/op_local.go:57-61 | When the source is neither a directory nor a glob, both batches return "internal error, not a glob" with no items and no sub-jobs. |
| `BatchProperties.EmptyDirectorySucceeds` | core/op_local.go:87-90 | An existing empty directory gives both batches success, with only the marker sent and no sub-jobs. In walk mode a copy whose glob matches nothing succeeds this way whatever the stat showed. |
| `BatchProperties.ZeroMatchesFail` | core/op_local.go:193-195 | In glob mode, a glob with zero matches gives both batches "could not find match for glob", with only the marker sent. |
| `BatchProperties.GlobErrorStops` | core/op_local.go:83-86 | A failing glob becomes the batch error. Only the marker is sent and no sub-job is dispatched. |
| `BatchProperties.NonRecursiveCopySkipsDirectories` | core/op_local.go:95-115 | A non-recursive copy dispatches sub-jobs for exactly the non-directory matches, in order, and none for directories. |
| `BatchProperties.UploadGlobSkipsDirectories` | core/op_local.go:188-204 | An upload in glob mode dispatches sub-jobs for exactly the non-directory matches, whatever the recursive flag. |
| `BatchProperties.RecursiveCopyTakesEveryFile` | core/op_local.go:100-113 | A recursive copy dispatches exactly the plain files listed beneath its matches before the first unreadable entry, and that entry's reason is the batch error. So the sources are a prefix of all those files, and the batch succeeds exactly when every matched tree is readable, covering them all. |
| `BatchProperties.UploadWalkTakesEveryFile` | core/op_local.go:176-187 | An upload in walk mode dispatches exactly the directory's plain files listed before its first unreadable entry, in walk order, and that entry's reason is the batch error. It succeeds exactly when the tree is readable, and then dispatches all of them. |
| `BatchProperties.CopyAndUploadAgreeOnDirectory` | core/op_local.go:63-68 | Over an existing directory whose listing can be read and whose glob returns its entries, with the recursive flag, copy and upload send the same stream, end with the same error, and produce the same sources and destinations. |
| `BatchProperties.UnreadableDirectorySplitsBatches` | core/op_local.go:83-90 | Over an existing directory whose listing cannot be read, the glob reports nothing and the copy succeeds with only the marker sent, while the upload fails with the read error. |
| `BatchProperties.ParentsDestinations` | core/op_local.go:123-134 | In parents mode every copy destination is the destination argument plus a name. Trim prefix + name is the source when the source starts with the prefix; otherwise the name is the source. |
| `BatchProperties.ParentsUploadDestinations` | core/op_local.go:212-223 | The same parents naming holds for every upload destination, with the upload's trim prefix. |
| `BatchProperties.FlattenDestinations` | core/op_local.go:129-134 | In flatten mode every destination is the destination argument plus the source's base name, which holds no separator. |
| `BatchProperties.RecursiveParentsCopyExample` | core/op_local.go:117-139 | Take "src/x.txt" and "src/sub/y.txt", copied recursively with parents naming from the glob "src/" + "*" to "dst/". The copy gives the sub-jobs "dst/x.txt" and "dst/sub/y.txt" with sub-command "cp", and creates "dst/sub" for the second. |

## Left out

- `LocalCopy` and `LocalDelete`: thin wrappers over rename, copy and remove behind a pre-check that is not part of this model. So is the rename-rather-than-copy behaviour of a move.
- `wildOperationLocal`, the channel, goroutines and the worker pool are not part of this model. The channel is the sequence of items sent, and the consumer reads it up to the first marker.
- Execution of sub-jobs, per-job errors and statistics types are not modelled.
- Real filesystem calls are inputs. `os.Stat` of the source is `Host.srcStat` (`None` when the stat fails). `filepath.Glob` is `Host.glob`, a given ordered list of matches, and host glob-pattern semantics are not modelled. Go's glob hides read errors and returns no matches; a host answer of `Matched([])` covers that case.
- `os.Stat` of a match is assumed to succeed. The source ignores its error, and a failure would dereference nil.
- Walk order: `filepath.Walk` visits each directory's entries in lexical order. The model walks a directory's children in the order the tree lists them, so a tree stands for a sorted listing.
- Symbolic links are not modelled. The walk's lstat and the glob loop's stat can disagree on them.
- Creating destination directories is recorded as `SubJob.makeDir` and not performed. Its errors are ignored in the source.
- `JobArgument.Append` is modelled as plain concatenation of the destination argument and the name. `Clone` needs no model: values are immutable, so no two sub-jobs share a destination object.
- The pass-through parameters are an opaque string.
- `GlobCharacters` is defined outside core/op_local.go. The model assumes the set "?*[".
- The text of an I/O error is the reason string carried by the tree or the glob result.
- `Paths.Dir`: it removes only trailing separators. Go's `path.Clean` also resolves "." and ".." elements and collapses repeated inner separators, so the result can differ on paths that contain those.
- `Paths.Join`: it concatenates with one separator and does not clean the result as `filepath.Join` does.
- `Paths.Base`: Windows volume names are not modelled; the separator is '/'.
