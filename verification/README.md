# nix-bundle-proot launcher, modelled in Dafny

`main.go` of nix-bundle-proot is a self-extracting launcher. It carries a
container root filesystem (`rootfs.tar.gz`: a gzip'd tar whose `…/layer.tar`
entry is itself a tar) and a static `proot` binary. When run as
`launcher /bin/hello args…`, it does the following:

- creates a temporary directory;
- unpacks the layer into that directory (`unpackTarGz`);
- starts proot with `-b <tmp>/nix:/nix <tmp>/bin/hello args…`, using the
  launcher's environment with `<tmp>/bin` put in front of `PATH`;
- waits for the child;
- removes the directory, unless `PROOT_NO_CLEANUP=1` is set;
- exits with the child's status.

The project models this core:

- **`paths.dfy`, module `Paths`:** the lexical path functions of Go's `path/filepath` that the extractor and the launcher rely on. `Clean`, two-element `Join` and the string-prefix `HasPrefix` are all modelled quirks included. `Within` is the component-wise containment test that `HasPrefix` is used in place of.
- **`extractor.dfy`, module `Extractor`:**
  - `unpackTarGz`, written as imperative code in the method `UnpackTarGz`. It works on a `FileSystem` object whose map of nodes is updated in place by `MkdirAll`, `Symlink` and `CreateAndCopy`.
  - The same method is proved equal to the functional description `Unpack` (built from `FindLayer`, `ExtractAll` and `Step`).
  - The containment checks are a `Policy`:
    - `AsWritten` is main.go's check: `HasPrefix` on cleaned strings, with the link text joined onto the entry's own path.
    - `Hardened` is the corrected check: component-wise, with the link resolved from the entry's directory, or taken as it is when absolute.
- **`extraction_facts.dfy`, module `ExtractionFacts`:** what the extraction does:
  - which layer it reads;
  - that entries are applied in order;
  - that it aborts on the first error without rollback;
  - what each entry type does to the filesystem.
- **`containment.dfy`, module `Containment`:**
  - the hardened checks confine every write, and every created link's target, to the destination, on a filesystem whose paths are compared lexically and whose links are never followed (see Left out);
  - concrete entries that get past main.go's checks (see Findings).
- **`launcher.dfy`, module `Launcher`:** `run` and `main`:
  - the proot argument list;
  - the `PATH` rewrite loop (the method `RewriteEnv`);
  - the cleanup switch;
  - the order of the steps;
  - the status the process exits with.

The source of Go's `path/filepath`, `os`, `archive/tar` and `os/exec` packages is not part of this model. `Paths` models `Clean`, `Join` and `HasPrefix` from their documented behaviour; the filesystem calls, the tar reader and process control are modelled from their documented contracts.

## Model

| member | source | states |
|---|---|---|
| Paths.CleanIdempotent | main.go:166 | cleaning twice is cleaning once; cleaning keeps the root flag and the components |
| Paths.PartsNormal | main.go:166 | the components of a cleaned path have no empty or "." element, no ".." in a rooted path, and ".." only as a leading run |
| Paths.RenderParts | main.go:166 | a normal component list written out as a path reads back as the same list and root flag |
| Paths.JoinComponents | main.go:164 | `filepath.Join(a, b)` is rooted like `a`; its components are `b`'s segments folded onto `a`'s components; it is already clean |
| Paths.JoinStaysWithin | main.go:164 | joining a name with no ".." segment onto a directory stays within it, component-wise |
| Paths.WithinImpliesPrefix | main.go:166 | component-wise containment implies main.go's string-prefix test on cleaned paths, unless the root is the relative "." |
| Paths.WithinClean | main.go:166 | containment depends only on the cleaned forms of both paths |
| Paths.JoinAbsoluteName | main.go:173 | for a non-empty `a` (every call in main.go has one), `filepath.Join(a, "/" + b)` is `filepath.Join(a, b)`: an absolute second element is folded in as a relative one |
| Paths.JoinUp | main.go:173 | `filepath.Join(a, "../" + w)` is `filepath.Join(d, w)`, where `d` is the cleaned `a` without its last component, whenever that component is a name; for a cleaned `a` (as every path main.go joins onto is), `d` is `filepath.Dir(a)` |
| Extractor.FileSystem.MkdirAll | main.go:182-185 | `os.MkdirAll`: the nodes become those of `AfterMkdirAll` on success and stay unchanged on error |
| Extractor.FileSystem.Symlink | main.go:177-180 | `os.Symlink`: the nodes gain the link on success and stay unchanged on error; an empty link text fails (ENOENT) |
| Extractor.FileSystem.CreateAndCopy | main.go:187-195 | `os.OpenFile(O_CREATE\|O_RDWR)` then `io.Copy`: the nodes become those of `AfterWrite` on success and stay unchanged on error |
| Extractor.UnpackTarGz | main.go:129-202 | the two loops return exactly the error of `Unpack` and leave exactly its filesystem, whatever the archive |
| ExtractionFacts.FindLayerTakesFirst | main.go:137-153 | the outer scan skips entries that are not regular `…/layer.tar` files and takes the first one that is |
| ExtractionFacts.FindLayerWithoutLayer | main.go:139-144 | with no layer entry, the scan fails with whatever ended the outer stream |
| ExtractionFacts.UnpackWithoutLayer | main.go:139-144 | with no layer: "layer.tar not found" at EOF, the read error otherwise, and nothing written |
| ExtractionFacts.UnpackUsesFirstLayer | main.go:149-153 | extraction reads the nested stream of the first layer entry only |
| ExtractionFacts.ExtractAllSplit | main.go:155-200 | entries are applied in stream order; a clean prefix hands its filesystem to the rest |
| ExtractionFacts.FirstErrorAborts | main.go:155-200 | the first failing entry ends extraction with its error; earlier writes stay (no rollback); later entries are never applied |
| ExtractionFacts.EscapeAborts | main.go:164-168 | an entry whose joined path fails the check aborts with the path-escape error, whatever its type |
| ExtractionFacts.UnsupportedAborts | main.go:196-197 | hard links, devices, FIFOs and every other type abort with "untar not supported" |
| ExtractionFacts.CleanRunEndsAtEof | main.go:156-162 | a stream whose entries all extract ends without error exactly when it ends at EOF, and otherwise with the read error |
| ExtractionFacts.SymlinkStep | main.go:172-180 | a symlink is created iff both checks pass, the link text is not empty, the path is free and its parent is a directory; it stores the raw link text; when the path check passes and the link check fails, the entry fails with "symbolic link points outside of target directory" and writes nothing |
| ExtractionFacts.LinkEscapeAborts | main.go:172-176 | a symlink entry whose link check fails ends extraction with the link-escape error; earlier writes stay and later entries are never applied |
| ExtractionFacts.MkdirAtEffect | main.go:182 | `MkdirAll` leaves a directory at the path; it changes nothing present and adds only directories with the entry's mode; it fails only at a non-directory on the path |
| ExtractionFacts.MkdirAtSucceeds | main.go:182 | `MkdirAll` succeeds whenever no component on the path is a non-directory |
| ExtractionFacts.MkdirAtAncestors | main.go:182 | `MkdirAll` creates the missing ancestors: every ancestor below the deepest one already present is a directory afterwards |
| ExtractionFacts.DirStep | main.go:181-185 | a directory entry that extracts passed the check and leaves a directory, with every missing ancestor created as a directory; what it adds are directories with its mode; nothing present before changes |
| ExtractionFacts.OverwriteContents | main.go:187-190 | without `O_TRUNC`, the file holds the entry's bytes followed by whatever of the old contents lay beyond them |
| ExtractionFacts.RegularStep | main.go:186-195 | a regular entry at a free path gets its bytes and mode; over an existing file it keeps the old mode and does not truncate |
| Containment.NamesWithoutDotDotPass | main.go:164-168 | a name without ".." segments passes the entry check under either policy |
| Containment.HardenedIsStricter | main.go:166-168 | whatever the component-wise check accepts, main.go's check accepts |
| Containment.MkdirAtAddsBelow | main.go:182 | the directories `MkdirAll` adds lie on the path, below the deepest existing directory |
| Containment.HardenedDirConfined | main.go:181-185 | under the hardened check, a directory entry changes only paths within the destination |
| Containment.SymlinkConfined | main.go:172-180 | a link whose path and resolved target are within the destination keeps the filesystem confined |
| Containment.WriteConfined | main.go:186-195 | writing a file within the destination keeps the filesystem confined |
| Containment.HardenedLeafConfined | main.go:172-197 | under the hardened check, symlink and regular entries change only paths within the destination |
| Containment.HardenedConfined | main.go:155-201 | corrected: under the hardened check, extraction removes nothing and replaces no directory; every path it adds or changes, and every target of a link it creates, lies within the destination, comparing paths lexically and never following a link |
| Containment.HardenedUnpackConfined | main.go:129-202 | the same for the whole archive |
| Containment.SiblingPrefixEscape | main.go:164-168 | as written: destination /tmp/rootfs1, directory entry "../rootfs12": main.go creates /tmp/rootfs12, outside the destination; the hardened check refuses it |
| Containment.RelativeLinkEscape | main.go:172-176 | as written: link /tmp/r/a -> ../x is checked as /tmp/r/x but points at /tmp/x; main.go creates it and the hardened check refuses it |
| Containment.AbsoluteLinkEscape | main.go:172-176 | as written: link /tmp/r/a -> /etc is checked as /tmp/r/a/etc; main.go creates it and the hardened check refuses it |
| Containment.LinkThenWrite | main.go:172-190 | as written: after the link /tmp/r/a -> ../x, a regular entry "a" passes the check and is opened at that link, whose target /tmp/x lies outside; the hardened check stops at the link |
| Launcher.ProotArgs | main.go:77-81 | proot gets one more argument than os.Args holds; the first is "-b"; os.Args[2:] follow unchanged and in order |
| Launcher.ProotArgsLayout | main.go:77-81 | the bind source is `<tmp>/nix` mapped to ":/nix"; the program path is os.Args[1] folded onto the temporary directory, and stays within it when os.Args[1] has no ".." segment |
| Launcher.LookupSpec | main.go:85 | `os.Getenv`: a value exactly when some entry is for the key, and then the value of the first such entry |
| Launcher.RewriteEnv | main.go:83-89 | the loop keeps every entry in order and replaces each entry starting with "PATH=" by `PATH=<tmp>/bin:<launcher PATH>` |
| Launcher.PathEntryKey | main.go:84 | an entry starting with "PATH=" is an entry for PATH and for no other key |
| Launcher.RewriteEntryKeys | main.go:84-86 | rewriting keeps the key of every entry and leaves entries of other keys unchanged |
| Launcher.LookupAfterRewrite | main.go:83-89 | looking a variable up after the rewrite: PATH has the new value if it was set and stays unset otherwise; other variables keep their values |
| Launcher.ChildEnvWithoutPath | main.go:83-89 | with no PATH, the child's environment is the launcher's own |
| Launcher.ChildEnvLookup | main.go:83-89 | the child's PATH is `<tmp>/bin`, a colon, then the launcher's PATH (so an empty PATH leaves a trailing empty element); everything else is passed on |
| Launcher.CleanupSwitch | main.go:61-63 | cleanup is off exactly when PROOT_NO_CLEANUP is set to exactly "1" |
| Launcher.RemoveConfined | main.go:61-63 | removing the fresh temporary directory after changes confined to it gives back exactly the filesystem from before it was created |
| Launcher.RunStarts | main.go:52-115 | the child is started iff there are two arguments and the temporary directory, the extraction, loading proot and the start all succeed; it gets the proot command line and the rewritten environment; `run` then returns what `Wait` reports |
| Launcher.RunCleanup | main.go:57-63 | once the temporary directory exists, it is removed with everything below it iff cleanup is on, whichever later step fails; writes outside it stay |
| Launcher.HardenedRunLeavesNoTrace | main.go:57-68 | corrected: with the hardened checks and cleanup on, `run` leaves the filesystem exactly as it found it, whatever the archive holds |
| Launcher.ExitStatus | main.go:40-49 | the status is in 0..255; 0 after nil; 1 from `log.Fatal` for every error other than a child failure |
| Launcher.WaitStatus | main.go:40-49 | a child's exit code 1..255 is passed through, a signal becomes 255, and the status is 0 exactly when `Wait` returned nil |
| Launcher.RunExitStatus | main.go:40-49 | the launcher exits 0 exactly when `run` returned nil; after a started child it mirrors its exit code, and exits 255 for a signal |
| Launcher.ExitStatusAmbiguous | main.go:40-49 | the status cannot tell internal errors from a child exiting 1, nor a signal from a child exiting 255 |

## Behaviour worth knowing

- **Containment:**
  - main.go:165 states the intent of the entry check: the target path must lie within the destination. The code tests a string prefix of the cleaned paths (main.go:166), which also accepts a sibling whose name starts with the destination's name.
  - main.go:170 states the intent of the link check: no symbolic link may point outside the destination. The code joins the link text onto the entry's own path (main.go:173), not onto its directory, and folds an absolute link text in as one more component.
  - `Policy.AsWritten` models the code and `Policy.Hardened` models the stated intent. See Findings.
- **Regular files:** the code opens with `O_CREATE|O_RDWR` and no `O_TRUNC` (main.go:187). A shorter entry written over an existing file leaves the old tail (`Overwrite`), and the existing file keeps its mode.
- **Exit status:** a child killed by a signal has `ExitCode() = -1`; `os.Exit(-1)` leaves the low byte, 255, the same status as a child exiting 255. Internal errors exit 1 through `log.Fatal`, the same status as a child exiting 1 (`ExitStatusAmbiguous`).
- **PATH:** only an existing `PATH=` entry is rewritten (main.go:84-86). Without one, the child gets no `PATH` at all (`ChildEnvWithoutPath`).

## Left out

- The gzip and tar decoders are not modelled. An archive is given decoded, as a `TarGz` value. A corrupt stream is a stream that ends `Broken`.
- Errors in the middle of `io.Copy` are not modelled, nor is the partial file they leave: a write either happens whole or fails before it starts.
- File modes are stored as given. The umask, the high bits of `os.FileMode(header.Mode)`, ownership and timestamps are not modelled.
- The filesystem is a map from cleaned path strings to nodes.
  - Symlinks are never followed: an existing symlink at the target path, or where a parent directory should be, is an error.
  - Relative destinations are compared as strings, with no current directory.
  - Two strings that name the same file through a symlink are different keys.
- `os.MkdirTemp`: the name it picks and its uniqueness are an input of `Run`. The directory is added to the map with mode 0700.
- `os.RemoveAll` is lexical removal from the map. Its error is ignored, as main.go ignores it.
- Loading proot with `memexec.New` and its `Close` are one input: whether loading fails.
- The child process is not modelled: how it is spawned, its stdio, `WaitDelay`, `Pdeathsig`, and whatever it writes to the filesystem.
- Signal handling is not modelled. Neither is the context cancellation that kills the child. A `Wait` error that is not an exit status (such as a cancelled context) is the input `WaitFailed`.
- `log.Fatal` for the usage error is modelled as the `Usage` error with status 1.
- `Launcher.Lookup` reads the list `os.Environ` returns. Go drops later duplicates of a key from that list, so the first entry for a key is its only one.
- Containment.HardenedConfined: confinement is proved for lexical keys in a filesystem that never follows links. On a real filesystem the hardened checks still let a chain of links escape: with destination /p/q, the entry `x/b -> ..` resolves to the destination itself and `l -> x/b/..` resolves lexically to /p/q/x, but on disk `l` points at /p.
- ExtractionFacts.SymlinkStep: the kernel's length limits on the link text and on the path (ENAMETOOLONG) are not modelled; any non-empty link text of any length is accepted.
- Extractor.ResolveLink: `Policy.Hardened` takes an absolute link text as it is, so it refuses every absolute link outside the destination, including links to /nix/... that the `<tmp>/nix:/nix` bind of main.go:78 would make usable inside proot. It states the containment intent and is not a drop-in replacement for main.go's check.
- Launcher.ProotArgs: requires two arguments, because `run` calls `log.Fatal` before building the list otherwise. `Run` models that path.

## Findings

| source | as written | input that shows it | evidently intended | confidence | as-written member | corrected member |
|---|---|---|---|---|---|---|
| main.go:166-168 | entry path accepted when the cleaned destination is a string prefix of the cleaned path | destination /tmp/rootfs1, directory entry "../rootfs12": creates /tmp/rootfs12 | component-wise containment, so siblings sharing a name prefix are refused | high (not executed) | Containment.SiblingPrefixEscape | Containment.HardenedConfined |
| main.go:173-176 | link checked as Join(entry path, link text) | entry "a" under /tmp/r linking to "../x" is checked as /tmp/r/x but points at /tmp/x; link "/etc" is checked as /tmp/r/a/etc | a relative link resolved from the entry's directory, an absolute link taken as it is (which refuses absolute links such as /nix/... too; see Left out) | high (not executed) | Containment.RelativeLinkEscape | Containment.HardenedConfined |
| main.go:186-190 | a regular entry is opened with `os.OpenFile`, which follows a symlink already at its path | under /tmp/r, entries `a -> ../x` (symlink) then regular `a`: the link check passes the link, the path check passes the file, and the file is written through the link into /tmp/x | nothing written outside the destination; the hardened check refuses this link (link chains: see Left out) | high (not executed) | Containment.LinkThenWrite | Containment.HardenedConfined |
