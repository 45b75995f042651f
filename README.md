# sstow, first entry pass — a Dafny model

sstow is an early symlink-farm tool: it mirrors a package directory into a
target directory. The version modelled here does not make links yet. It
reads the entries of the package directory and prints what it would do for
each one. This project models the three parts of `sstow.c` that can be stated
and checked:

- **`join`**: builds `s1 + "/" + s2` in a freshly allocated buffer
  (`paths.dfy`, module `Paths`). `Join` is the resulting value. `JoinBuffer`
  follows the C steps: an allocation of `strlen(s1) + strlen(s2) + 2`
  characters, then `strcpy`, then two `strcat` calls. `SplitLast` splits a path
  at its last `/` and serves as the inverse of `Join`.
- **The first loop of `iter_dirs`**: it reads one directory in order, skips
  `.` and `..`, and joins each remaining name onto the package root and onto
  the target root. It calls `lstat` on the package-side path and passes the
  entry, its kind and both paths to a callback (`directory_pass.dfy`, module
  `DirectoryPass`). The directory stream is a sequence of `Entry` values. Each
  one records the outcome of `lstat` on its source path: failed, directory, or
  other. `IterDirsFirstPass` is the loop. It records the callback invocations
  in order. A failing `lstat` ends in `Aborted`, which names the entry. The
  loop is proved to agree with `EntryPass`, a recursive description.
  `EntryPassCharacterized` relates `EntryPass` to `PassSpec`, a description
  of the whole listing at once: the visited entries, then the first visited
  entry whose `lstat` fails.
- **`create`**, the callback: it produces one output line per invocation
  (`create_report.dfy`, module `CreateReport`). For a directory the line is
  `mkdir <source path>`. For anything else it is
  `<source path> -> <target path>`. The model returns each line instead of
  printing it. `Emitted` is the standard output of a run of callbacks.
  `Lines` splits text back into lines. `FirstPassReport` pairs that output
  with the `lstat <name>` diagnostic a dying pass writes to standard error
  before it exits with status 1.

The behaviour of `sstow.c` differs in places from what a symlink-farm tool
might be expected to do. The model follows `sstow.c` as written:

- `join` does not return the other operand when one operand is empty. It
  always inserts the `/`, so `join("", s)` is `"/" + s`
  (`JoinEmptyOperands`).
- `create` logs a directory as `mkdir` followed by the *source* path, not
  the target path where a directory would be created
  (`CreateDirIgnoresTarget`).
- There is no recursive enumeration of the tree and no link or unlink
  pass. The first pass only reports immediate children
  (`EntryPassChildrenOnly`).
- The diagnostic on a failed `lstat` names the bare entry name, not the
  joined path it tried.

## Model

| member | source | states |
|---|---|---|
| `Paths.Join` | sstow.c:20-31 | the joined path has length \|s1\| + \|s2\| + 1, starts with s1, has '/' at index \|s1\| and ends with s2 |
| `Paths.SplitLastJoin` | sstow.c:27-29 | joining a name that holds no '/' can be undone: splitting the result at its last '/' gives back both operands |
| `Paths.JoinInjective` | sstow.c:27-29 | two joins of '/'-free names are equal only when both operands are equal |
| `Paths.JoinEmptyOperands` | sstow.c:27-29 | empty operands are not special-cased: `join("", s)` starts with '/', `join(s, "")` ends with '/', and neither equals `s` |
| `Paths.StrLen` | sstow.c:28-29 | on a buffer that holds a C string, the count of characters before the first NUL is that string's length (how strcat finds where to append) |
| `Paths.StrCpy` | sstow.c:27 | strcpy leaves the buffer holding s1 and its terminating NUL, and every character after that NUL unchanged |
| `Paths.StrCat` | sstow.c:28-29 | strcat on a buffer that holds `cur` leaves it holding `cur + src` and a NUL, provided the buffer is large enough, and every character after the new NUL unchanged |
| `Paths.JoinBuffer` | sstow.c:23-29 | the buffer is newly allocated. Its strlen(s1) + strlen(s2) + 2 characters are exactly filled by the joined path and its NUL, so every write stays in bounds |
| `DirectoryPass.VisibleMembers` | sstow.c:62-63 | the entries the pass visits are exactly the listed entries other than "." and ".." |
| `DirectoryPass.EntryPassCharacterized` | sstow.c:61-71 | the pass makes one callback per visited entry, in listing order. If a visited entry fails lstat, the callbacks stop just before the first such entry and the pass dies naming it |
| `DirectoryPass.EntryPassAbortsIff` | sstow.c:66-67 | the pass dies if and only if some listed entry other than "." and ".." fails lstat |
| `DirectoryPass.EntryPassVisitsInOrder` | sstow.c:61-68 | a pass that finishes calls the callback exactly once per visited entry, in order, with `join(root_name, name)` and `join(target_name, name)` and the entry's kind |
| `DirectoryPass.EntryPassStopsAtFailure` | sstow.c:66-68 | a pass that dies names the first visited entry whose lstat fails. The callback ran for every visited entry before it and for none from it on |
| `DirectoryPass.EntryPassChildrenOnly` | sstow.c:64-65 | every path handed to the callback is a listed name directly under the package root, paired with the same name directly under the target root: the pass never descends |
| `DirectoryPass.IterDirsFirstPass` | sstow.c:59-71 | the readdir loop's outcome (callbacks made, and death on lstat failure) is the one `EntryPass` describes |
| `CreateReport.CreateLine` | sstow.c:90-104 | the callback produces text ending in a newline. When the paths hold no newline it is exactly one line |
| `CreateReport.CreateDirIgnoresTarget` | sstow.c:97-100 | a directory's line is "mkdir " followed by the source path. The target path plays no part in it |
| `CreateReport.EmittedLines` | sstow.c:97-103 | the output of a run of callbacks splits into exactly one line per invocation, in call order |
| `CreateReport.FirstPassOutput` | sstow.c:61-68 | end to end, the pass prints one `create` line per visited entry, in listing order, up to the first visited entry whose lstat fails. It then writes the diagnostic "lstat <name>". With no failure it prints a line for every visited entry and writes no diagnostic |

## Left out

- The second loop of `iter_dirs` (sstow.c:72-87) is not modelled. It calls `iter_dirs()` with no arguments, so the file does not compile there and the intended recursion is unknown. The model stops where the first loop ends, together with its `rewinddir`.
- `get_dirent` (sstow.c:33-48) is not modelled. It is unused, does only I/O, and returns an uninitialised value when no "." entry exists.
- `main` (sstow.c:106-119) is not modelled. It checks for exactly two arguments (target first, package second), opens the package directory and dies if that fails. This is argument and I/O glue.
- `opendir`, `readdir`, `rewinddir`, `closedir` and `lstat` are replaced by the `Entry` sequence. Each entry records whether lstat succeeded and whether it saw a directory. The order of the sequence is the order readdir returns.
- Mode bits other than "directory or not" (`S_IFMT` masking, sstow.c:97) are collapsed into `isDir`.
- `die`, `exit`, `printf` and `vfprintf` are not modelled. A fatal exit becomes the `Aborted` outcome with the `lstat <name>` diagnostic. Printed lines become returned strings.
- `JoinBuffer`: a failing `malloc` (which dies with "malloc join") is not modelled, and neither are the `free` calls at sstow.c:69-70. `JoinBuffer` only covers a successful allocation.
- `EmittedLines`, `FirstPassOutput`: assume that no root and no entry name holds a newline. A name with a newline in it makes a `create` line span several output lines.
- `EntryPassChildrenOnly`: assumes entry names hold no '/'. This holds for names returned by readdir.
- The callback parameter is fixed to `create`, the only callback the file passes. The pass records the invocations, and `CreateReport` turns them into lines. The unused dirent argument `d` is represented only by its name.
