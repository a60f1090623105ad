# fuse (Mega virtual filesystem) — inode records, request client and configuration, in Dafny

This project models the core of a read-only FUSE filesystem. The filesystem shows a remote
Mega repository as local files. The model covers three parts of the Rust source:

- **Inode records** (`src/core/inode.rs`). This part holds the inode number allocator,
  modelled as an `InoAllocator` object instead of the process-wide `AtomicU64`. It also holds
  the `Inode` record and its ordered children list, which can be appended to and can lose the
  first occurrence of a child. Three pure record constructors complete it: the projection into
  the kernel's `FileAttr`, the synthetic root, and the conversion of a decoded remote tree
  entry (`Object`) into `InodeAttributes`.
- **The remote object client** (`src/core/mega_client.rs`). This part builds the request
  targets of the three HTTP endpoints and the GET request sent to them. It also models the loop
  that assembles a response body from the frames a connection delivers. The network is replaced
  by the outcome of a send: a failure, or the sequence of frames received.
- **Configuration validation** (`src/config.rs`). The validators take each optional field out
  of a `Config` only when it is present and valid. `From<Config> for ValidatedConfig` runs all
  four validators.

Modules:

- `Wrappers`: `Option` and `Result`.
- `Decimal`: `str::parse::<u64>` and decimal formatting. Commit dates and the server port
  share it.
- `Paths`: Unix `Path::components()`, `skip`, and collecting into a `PathBuf`.
- `Utf8`: well-formed UTF-8 as in Table 3-7 of The Unicode Standard. `str::from_utf8` checks
  exactly this.
- `Inodes`, `MegaClient` and `Configuration`: the three source files.

Conventions:

- Times (`SystemTime`) are whole seconds after the Unix epoch.
- The file system query `is_dir` is a parameter `dirs`: the set of paths that are directories.
- Response bodies are kept as UTF-8 bytes. A Rust `String` is such a byte vector, and
  `push_str` appends bytes.
- A Rust panic from `unwrap` is modelled in one of two ways. When the source's callers must
  rule it out, it is a `requires`. When it is the outcome that matters, it is an `Err` or `None`
  result.

Two details of the code that the model keeps as written:

- `From<Object>` skips two path components, `/` and `projects`, so the repository segment
  stays: `/projects/fuser/deny.toml` is stored as `fuser/deny.toml`.
- `file_attr` computes `blocks = size / 4096 + 1`. A size of 0 gives 1 block, and a size of
  4096 gives 2.

## Model

| member | source | states |
|---|---|---|
| `Decimal.ParseU64` | src/core/inode.rs:167 | a parsed commit date always fits in 64 bits, and a string that parses starts with `+` or a digit |
| `Decimal.ToDecimal` | src/config.rs:60 | the port is written as a non-empty digit string whose value is the port, with no leading zero |
| `Decimal.ParseToDecimal` | src/core/inode.rs:167 | parsing the decimal text of any `u64`, with or without a leading `+`, gives that number back |
| `Decimal.LeadingZeroIgnored` | src/core/inode.rs:167 | a leading `0` does not change the parsed value of a commit date |
| `Paths.Split` | src/core/inode.rs:179-181 | a path splits into at least one segment, and no segment contains `/` |
| `Paths.JoinSplit` | src/core/inode.rs:179-181 | joining a path's segments with `/` gives the path back |
| `Paths.Components` | src/core/inode.rs:179-181 | only the first component can be the root or `.`; every later one is `..` or a plain name |
| `Paths.Push` | src/core/inode.rs:182-184 | `PathBuf::push`: the result ends with the pushed text; an absolute text replaces the buffer, and otherwise the buffer is kept in front |
| `Paths.Collect` | src/core/inode.rs:182-184 | `collect::<PathBuf>()`: no components give the empty path; otherwise the path ends with the last component's text |
| `Paths.CollectInner` | src/core/inode.rs:182-184 | collecting names and `..` components gives their texts joined by single `/` |
| `Paths.SkipComponents` | src/core/inode.rs:179-184 | `components().skip(k).collect()`: empty when there are at most `k` components, and otherwise ending with the text of the last component |
| `Paths.SkipComponentsDrops` | src/core/inode.rs:179-187 | the stored path's components are the entry path's components from the third on, and it is empty when there are at most two |
| `Paths.SkipRootAndFirst` | src/core/inode.rs:179-187 | `/projects/<repo>/a/b` is stored as `<repo>/a/b`: the root and the first segment go, and the repository segment stays |
| `Utf8.SequenceLength` | src/core/mega_client.rs:87 | the length it gives the sequence at the head of a chunk is at most 4 and lies inside the chunk |
| `Utf8.Valid` | src/core/mega_client.rs:87 | the check `str::from_utf8` makes; valid non-empty text never starts with a continuation byte or with `0xC0`, `0xC1` or a byte above `0xF4` |
| `Utf8.ConcatValid` | src/core/mega_client.rs:87 | appending a valid chunk to valid output keeps the output valid UTF-8 |
| `Utf8.SplitCharacter` | src/core/mega_client.rs:87 | the two bytes of `é` are valid together and invalid apart |
| `MegaClient.BaseTreeTarget` | src/core/mega_client.rs:107 | the target is `/api/v1/tree?repo_path=/projects/` followed by the repository name and nothing else |
| `MegaClient.SubTreeTarget` | src/core/mega_client.rs:116-119 | the target is `/api/v1/tree?object_id=`, then the id, then `&repo_path=/projects/` and the repository name |
| `MegaClient.FileContentTarget` | src/core/mega_client.rs:128-131 | the target is `/api/v1/object?object_id=`, then the id, then `&repo_path=/projects/` and the repository name |
| `MegaClient.FormRequestTo` | src/core/mega_client.rs:97-103 | the request is a GET of exactly the target, with an empty body |
| `MegaClient.Request` | src/core/mega_client.rs:78-95 | a send failure is returned as `Err`; otherwise the result is the frame loop's result over the received frames |
| `MegaClient.Assemble` | src/core/mega_client.rs:81-92 | the frame loop's result after a prefix of the frames: any body it gives is valid UTF-8, and its failures are frame faults, never a send error |
| `MegaClient.AssembleStopsAtError` | src/core/mega_client.rs:83-87 | once the frame loop has failed, later frames do not change the result |
| `MegaClient.AssembleOk` | src/core/mega_client.rs:81-92 | the loop succeeds if and only if every frame is trailers or a valid UTF-8 data chunk; the body is then all data chunks concatenated in arrival order, and it is valid UTF-8 |
| `MegaClient.AssembleFirstFault` | src/core/mega_client.rs:84-87 | the loop fails with the fault of the first bad frame: a frame error or a chunk that is not UTF-8 |
| `MegaClient.RequestBaseTree` | src/core/mega_client.rs:106-112 | sends a GET to `/api/v1/tree?repo_path=/projects/<repo>` and hands the loop's body to the decoder |
| `MegaClient.RequestSubTreeWithId` | src/core/mega_client.rs:115-124 | sends a GET to `/api/v1/tree?object_id=<id>&repo_path=/projects/<repo>` and hands the loop's body to the decoder |
| `MegaClient.RequestFileContent` | src/core/mega_client.rs:127-135 | sends a GET to `/api/v1/object?object_id=<id>&repo_path=/projects/<repo>` and returns the raw body unparsed |
| `MegaClient.TargetsDistinct` | src/core/mega_client.rs:106-131 | the base-tree, subtree and content targets never coincide, whatever the repository and ids |
| `MegaClient.BaseTreeTargetInjective` | src/core/mega_client.rs:107 | a base-tree target names one repository |
| `MegaClient.QueryDetermined` | src/core/mega_client.rs:116-119 | a target with an `object_id` and a `repo_path` determines both when the id has no `&` |
| `MegaClient.SubTreeTargetInjective` | src/core/mega_client.rs:116-119 | a subtree target names one (repository, id) pair when ids have no `&` |
| `MegaClient.FileContentTargetInjective` | src/core/mega_client.rs:128-131 | a content target names one (repository, id) pair when ids have no `&` |
| `MegaClient.SubTreeTargetAmbiguous` | src/core/mega_client.rs:116-119 | for any `a`, `b`, `c`: the pairs (`b`, `a&repo_path=/projects/c`) and (`c&repo_path=/projects/b`, `a`) differ but share a target, because the id is not encoded |
| `MegaClient.SplitCharacterAborts` | src/core/mega_client.rs:85-87 | a character whose two bytes arrive in two frames makes the loop fail, although the whole body is valid |
| `MegaClient.RequestWholeBody` | src/core/mega_client.rs:78-95 | corrected loop: frames are concatenated, and the whole body is checked as UTF-8 once at the end |
| `MegaClient.WholeBodyAgrees` | src/core/mega_client.rs:81-92 | wherever the loop as written succeeds, the corrected loop succeeds with the same bytes |
| `Inodes.ContentTypeFromTag` | src/core/inode.rs:45-51 | the tag `"file"` decodes to `File` and only it does; `"directory"` decodes to `Dir` and only it does |
| `Inodes.FileTypeOf` | src/core/inode.rs:53-60 | `Dir` maps to `Directory` and `File` to `RegularFile`, both directions |
| `Inodes.DefaultPermissions` | src/core/inode.rs:170-173 | 0o755 exactly for a directory and 0o644 exactly for a file |
| `Inodes.AttributesFromObject` | src/core/inode.rs:165-192 | fails if and only if `commit_date` does not parse; otherwise size 0, `mtime == ctime ==` the parsed seconds, permissions 0o755 for a directory and 0o644 for a file, the same id, name and kind, and the path with two components skipped |
| `Inodes.RootAttributes` | src/core/inode.rs:133-142 | the root is a directory of size 4096 with permissions 0o755, an empty path, its id and name equal to the filesystem name, `mtime` the first clock reading and `ctime` the second |
| `Inodes.InoAllocator.constructor` | src/core/inode.rs:68 | the counter starts at `FUSE_ROOT_ID + 1 = 2` |
| `Inodes.InoAllocator.Alloc` | src/core/inode.rs:70-72 | returns the current value and increments the counter modulo 2^64; the k-th call returns `(2 + k) mod 2^64` |
| `Inodes.IdAt` | src/core/inode.rs:68-72 | the number of the k-th call is `k + 2` until the counter wraps, and `k + 2 - 2^64` after the first wrap |
| `Inodes.IdAtSucc` | src/core/inode.rs:71 | the number handed out by a call is one more, modulo 2^64, than the one before |
| `Inodes.IdsIncrease` | src/core/inode.rs:68-72 | before the counter wraps, numbers are handed out in strictly increasing order and are all above the root id 1 |
| `Inodes.RootIdAfterWrap` | src/core/inode.rs:68-72 | the root id is handed out only after 2^64 - 1 calls, and 0 only after 2^64 - 2 calls |
| `Inodes.RemoveFirst` | src/core/inode.rs:98-107 | the children list without the first occurrence of the child: unchanged when the child is absent, one shorter when it is present, and holding no new numbers |
| `Inodes.RemoveFirstAt` | src/core/inode.rs:98-107 | removing the first occurrence at index `i` gives the list before `i` followed by the list after `i` |
| `Inodes.RemoveFirstCounts` | src/core/inode.rs:98-107 | removing a present child shortens the list by one and drops exactly one copy of that child |
| `Inodes.RemoveUndoesInsert` | src/core/inode.rs:95-107 | appending a new child and then removing it restores the list |
| `Inodes.RemoveAfterDuplicateInsert` | src/core/inode.rs:95-107 | when the child was already present, removal after an append drops the earlier copy and keeps the appended one |
| `Inodes.Inode.constructor` | src/core/inode.rs:84-93 | a fresh allocated number, the given parent and attributes, no children and no content; only the allocator changes, and no parent's list is touched |
| `Inodes.Inode.Root` | src/core/inode.rs:132-150 | the root is its own parent with `ino = 1`, has the root attributes for the two clock readings, and has no children and no content |
| `Inodes.Inode.InsertChild` | src/core/inode.rs:95-97 | the child is appended at the end, and no other field changes |
| `Inodes.Inode.RemoveChild` | src/core/inode.rs:98-107 | exactly the first occurrence of the child is removed and the rest keeps its order; no other field changes; the child must be present |
| `Inodes.Inode.FileAttributes` | src/core/inode.rs:109-131 | ino, size and permissions are copied; `atime == mtime` and `crtime == ctime`; blocks is the one value with `(blocks - 1) * 4096 <= size < blocks * 4096`; nlink 1, rdev 0, flags 0, blksize 4096; uid and gid are the arguments; the kind is mapped |
| `Inodes.ConvertedEntryAttr` | src/core/inode.rs:109-131 | an inode built from a converted entry has size 0, 1 block, all four times equal to the commit date, and permissions 0o755 exactly when it is a directory |
| `Inodes.RootAttr` | src/core/inode.rs:109-150 | the root's attributes are ino 1, a directory, permissions 0o755, size 4096, 2 blocks; access and modification times are the first clock reading, and change and creation times the second |
| `Inodes.SampleCommitDateParses` | src/core/inode.rs:211 | the test sample's commit date `"1701057603"` parses to 1701057603 seconds |
| `Inodes.SamplePathKeepsRepository` | src/core/inode.rs:207 | the test sample's path `/projects/fuser/deny.toml` is stored as `fuser/deny.toml` |
| `Inodes.SampleEntryConverts` | src/core/inode.rs:204-213 | the test sample's first entry converts to a file with size 0, permissions 0o644, both times 1701057603 and the path `fuser/deny.toml` |
| `Configuration.TakeIfDir` | src/config.rs:33-55 | a validator succeeds if and only if its field holds a path that is a directory; on success it returns that path and empties the field, and on failure the field is unchanged |
| `Configuration.TakeOnce` | src/config.rs:33-39 | after a successful validation, validating the same field again fails |
| `Configuration.FailureIsStable` | src/config.rs:33-39 | after a failed validation, validating again gives the same failure and state |
| `Configuration.HostPort` | src/config.rs:60 | `format!("{}:{}", host, port)`: the host, one `:`, then only decimal digits |
| `Configuration.HostPortRoundTrip` | src/config.rs:57-61 | splitting `host:port` at the last `:` and parsing the port gives back the host and the port, even when the host contains `:` |
| `Configuration.Config.constructor` | src/config.rs:19-30 | a configuration holds the five given optional fields |
| `Configuration.Config.ValidateMountPoint` | src/config.rs:33-39 | follows the validator rule on `mount_point`; the other four fields are unchanged |
| `Configuration.Config.ValidateCacheDir` | src/config.rs:41-47 | follows the validator rule on `cache_dir`; the other four fields are unchanged |
| `Configuration.Config.ValidateLogDir` | src/config.rs:49-55 | follows the validator rule on `log_dir`; the other four fields are unchanged |
| `Configuration.Config.ValidateMegaUrl` | src/config.rs:57-61 | returns `Ok(host + ":" + decimal(port))` and never `Err`; the host is taken and the port stays; both must be present |
| `Configuration.ValidatedFrom` | src/config.rs:90-100 | succeeds if and only if the three directories are present and are directories and the host and port are present; each field is then the value its validator returned |

## Findings

| source | as written | input that shows it | evidently intended | confidence | as-written member | corrected member |
|---|---|---|---|---|---|---|
| src/core/mega_client.rs:85-87 | each data frame's chunk is checked with `str::from_utf8` on its own, and the check is unwrapped | frames `[0xC3]` then `[0xA9]`, the two bytes of `é` split across two frames: both checks fail, so the call panics | the body is checked as UTF-8 once, after it is complete, so frame boundaries cannot split a character | medium, not executed | `MegaClient.SplitCharacterAborts` | `MegaClient.RequestWholeBody` |

`MegaClient.Request` and the three `Request*` endpoint methods model the loop as written.
`MegaClient.RequestWholeBody` is the corrected loop. `MegaClient.WholeBodyAgrees` proves that
it succeeds wherever the loop as written does, with the same bytes.

## Left out

- The operation dispatcher is not modelled. `FS` in `src/core/mod.rs` has every filesystem
  method commented out.
- No inode table, tree walk, read slicing, directory pagination or name-length check is
  modelled. None of these exists in the code.
- The network and the runtime are not modelled: the tokio runtime, the TCP connection, the
  HTTP handshake, the spawned connection task and `block_on`. They are I/O and concurrency.
  The send and the frames it yields are a parameter of the methods instead.
- `from_default_runtime` and `from_customized_runtime` are not modelled. They only build a
  connection.
- `src/core/hyper_client.rs` is not modelled. It is a prototype that duplicates `MegaClient`.
- JSON decoding of `Objects` and `Object` is not modelled. It is library code. The decoded
  `Object` is a datatype. Only the `content_type` tags are modelled.
- `MegaClient.RequestBaseTree`, `MegaClient.RequestSubTreeWithId`: these stop at the body
  handed to the decoder. The `unwrap` of the body and of the JSON decode makes every `Err`
  result a panic.
- `MegaClient.FormRequestTo` does not model the `http` crate's URI validation. The source
  panics when the crate rejects a target.
- `Inodes.AttributesFromObject` does not model the `checked_add` overflow of `SystemTime`
  (`unwrap` at src/core/inode.rs:168-169). The limit depends on the platform. The
  `to_str().unwrap()` on the path cannot fail here, because the path comes from a JSON string.
- `Inodes.Inode.Root` takes its two clock readings, one for `mtime` and one for `ctime`, as
  parameters instead of calling `SystemTime::now()` twice.
- `Configuration.ValidatedFrom` works on a `Config` object that the caller can still see. The
  source consumes its `Config` by value, so the taken fields are not visible afterwards.
- `From<Args> for Config` is not modelled. It reads `mega_host` and `mega_port`, but `Args`
  only has `mega_url`.
- The command-line parsing, bootstrap, logging, mounting and `src/core/request.rs` are not
  modelled. They are glue and I/O.
- Tracing calls are not modelled.
