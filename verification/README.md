# Streaming blame handler and ctags emitter, modelled in Dafny

Two small pieces of Sourcegraph are modelled here and their promises are proved.

**Streaming git blame** (`cmd/frontend/internal/httpapi/stream_blame.go`, `serveStreamBlame`).
The HTTP handler is written as a pure function `StreamBlame.Serve(request, backend)`. It returns the transcript of effects the handler causes:
- headers written;
- the repository resolver consulted;
- the event writer and the blame reader opened;
- each `Read` call;
- each `streamWriter.Event` frame;
- trace errors;
- `http.Error` responses.

The backend parameter stands for the collaborators: the resolver's answer, whether the writer and the reader fail to open, the successive `(hunk, done, err)` triples the reader returns, and the successive results of the "hunk" `Event` calls. Go's `strings.TrimLeft` and `html.EscapeString` are written out (`Text.TrimLeft`, `GoHtml.EscapeString`). The stat hook becomes a function from a `WriterStat` to the list of trace fields it logs.

**ctags mode of the syntax highlighter** (`docker-images/syntax-highlighter/crates/scip-syntax/src/ctags.rs`).
A file's tree of scopes is turned into the list of replies the crate writes: one tag per named scope and one per global.
- `Ctags.EmitTagsForScope` models `emit_tags_for_scope`.
- `Ctags.WriteTag` models `Reply::write_tag`.
- `Ctags.DescriptorsToKind` models `descriptors_to_kind`.
- `Ctags.GenerateTags` models `generate_tags`. The parser table and `get_globals` are parameters.
- Rust's `Path::file_name` and `Path::extension` for Unix paths are modelled in `RustPath`.

Modules: `Wrappers` (Option), `Text` (string helpers), `GoHtml`, `StreamBlame`, `StreamBlameProperties`, `RustPath`, `Ctags`, `CtagsProperties`.

## Model

| member | source | states |
|---|---|---|
| StreamBlame.Serve | cmd/frontend/internal/httpapi/stream_blame.go:30-34 | The handler answers exactly one 404 header and does nothing else if and only if the "enable-streaming-git-blame" flag is off or absent. |
| StreamBlame.NormalizePath | cmd/frontend/internal/httpapi/stream_blame.go:66-68 | The path handed to the blame reader never starts with "/". It is the requested path with a run of leading slashes removed. A path without a leading slash is passed unchanged. |
| Text.TrimLeft | cmd/frontend/internal/httpapi/stream_blame.go:67 | The result is a suffix of the input. Every removed character is in the cutset. The result does not start with a cutset character. |
| StreamBlame.LoopFraming | cmd/frontend/internal/httpapi/stream_blame.go:79-95 | For every sequence of read outcomes and Event results, the i-th frame answers the i-th read: the hunk of a clean read, or "done" as the last frame for a done read. There is at most one "done" frame and it is the final effect. An error response is the final effect and never follows a "done" frame. The loop never reads more than the producer answers. |
| StreamBlameProperties.ServeFramingInvariant | cmd/frontend/internal/httpapi/stream_blame.go:29-96 | The same framing guarantees hold for the whole handler, for every request and every collaborator behaviour, including the early exits. |
| StreamBlameProperties.LoopAfterHunks | cmd/frontend/internal/httpapi/stream_blame.go:79-95 | After k clean reads whose Events succeed, the loop has emitted one read and one "hunk" frame per record, in order, and continues as it would on the remaining outcomes. |
| StreamBlameProperties.ServeAfterHunks | cmd/frontend/internal/httpapi/stream_blame.go:66-95 | With the writer and reader open, the transcript is the preamble, then the k streamed records, then the loop on the remaining outcomes. |
| StreamBlameProperties.LoopStopsOnDone | cmd/frontend/internal/httpapi/stream_blame.go:86-88 | A clean read reporting done ends the loop with one read and one "done" frame. The done Event's own result plays no part. |
| StreamBlameProperties.ServeStreamsAllHunks | cmd/frontend/internal/httpapi/stream_blame.go:79-89 | N records followed by done produce exactly the preamble, N read/hunk-frame pairs in production order, one read and the "done" frame. Nothing after done is read. |
| StreamBlameProperties.StreamsAllHunksFrames | cmd/frontend/internal/httpapi/stream_blame.go:79-89 | For N records followed by done, the handler calls `Event` with exactly the N hunk frames in order and then the "done" frame, after N + 1 reads. |
| StreamBlameProperties.LoopStopsOnReadError | cmd/frontend/internal/httpapi/stream_blame.go:80-85 | A read error ends the loop with the error traced and a 500 whose body is the HTML-escaped message. The error wins even when the same read also reports done. |
| StreamBlameProperties.ServeReadError | cmd/frontend/internal/httpapi/stream_blame.go:80-85 | A read error after k records gives exactly the preamble, k records, one read, the trace error and the escaped 500. |
| StreamBlameProperties.ServeEventError | cmd/frontend/internal/httpapi/stream_blame.go:90-94 | A failing "hunk" Event after k successful ones gives exactly the preamble, k records, the read and attempted frame, the trace error and the escaped 500. |
| StreamBlameProperties.ReadErrorFrames | cmd/frontend/internal/httpapi/stream_blame.go:80-85 | For a read error after k records, the handler has called `Event` with exactly the k hunk frames and never with "done", after k + 1 reads. |
| StreamBlameProperties.EventErrorFrames | cmd/frontend/internal/httpapi/stream_blame.go:90-94 | For a failing "hunk" Event after k successful ones, the handler has called `Event` with the k hunk frames and the attempted one and never with "done", after k + 1 reads. |
| StreamBlameProperties.ServeWriterFails | cmd/frontend/internal/httpapi/stream_blame.go:47-52 | A failing NewWriter gives a trace error and a 500 carrying the unescaped message. No reader is opened and nothing is read or framed. |
| StreamBlameProperties.ServeReaderFails | cmd/frontend/internal/httpapi/stream_blame.go:70-77 | A failing StreamBlameFile gives a trace error and an unescaped 500 straight after the reader is opened. Nothing is read or framed. |
| StreamBlameProperties.ResolveErrorIgnored | cmd/frontend/internal/httpapi/stream_blame.go:43-47 | The transcript is the same whether or not the resolver reported an error. |
| StreamBlameProperties.MissingRepoDoesNotStop | cmd/frontend/internal/httpapi/stream_blame.go:39-41 | A missing "Repo" route variable writes a 400 header and the handler then carries on exactly as if the variable were present. |
| StreamBlame.Milliseconds | cmd/frontend/internal/httpapi/stream_blame.go:58 | The logged duration is the nanosecond count divided by 10^6, rounded toward zero, for both signs. |
| StreamBlame.StatHookFields | cmd/frontend/internal/httpapi/stream_blame.go:54-63 | The hook logs the event name, byte count and duration in milliseconds, in that order. It adds an error field as a fourth field exactly when the write failed. |
| GoHtml.EscapeString | cmd/frontend/internal/httpapi/stream_blame.go:83 | The escaped body never contains `<`, `>`, `'` or `"`, and is no shorter than the message. A message with none of the five special characters is unchanged. |
| GoHtml.UnescapeEscape | cmd/frontend/internal/httpapi/stream_blame.go:92 | Decoding the five entities restores the original message, for every message, so escaping loses nothing. |
| Ctags.DescriptorsToKind | docker-images/syntax-highlighter/crates/scip-syntax/src/ctags.rs:125-138 | The mapping is total: every descriptor list, including the empty one, gets one of namespace, package, method, type or variable. |
| CtagsProperties.KindOfDescriptors | docker-images/syntax-highlighter/crates/scip-syntax/src/ctags.rs:125-138 | "namespace", "method" and "type" each hold if and only if the last descriptor has the matching suffix. "variable" holds if and only if the list is empty or its last suffix is any other value, including one the enum does not know. "package" never occurs, because its arm matches the same value as the "namespace" arm. |
| Ctags.Line | docker-images/syntax-highlighter/crates/scip-syntax/src/ctags.rs:75 | The line is the range start plus one for non-negative starts. A start of -1 gives line 0. More negative starts wrap to 2^64 + start + 1, as the release build's sign-extending cast and wrapping addition do. |
| Ctags.ScopeField | docker-images/syntax-highlighter/crates/scip-syntax/src/ctags.rs:156-160 | The tag's scope is None if and only if the parent path is empty. Otherwise it is the parent names joined by ".". |
| CtagsProperties.ScopeFieldSplits | docker-images/syntax-highlighter/crates/scip-syntax/src/ctags.rs:156-160 | Splitting a scope field at "." gives back the parent path when no name contains ".". |
| Ctags.WriteTag | docker-images/syntax-highlighter/crates/scip-syntax/src/ctags.rs:57-81 | A scope's tag has its descriptor names joined by "." as name, the 1-based line of its range start, the kind of its descriptors, and the given path, language and scope. |
| CtagsProperties.OwnTagQualifiedName | docker-images/syntax-highlighter/crates/scip-syntax/src/ctags.rs:155-163 | A named scope's tag, read back as scope + "." + name, is the dotted path of its parents followed by all its own names. |
| Ctags.GlobalTag | docker-images/syntax-highlighter/crates/scip-syntax/src/ctags.rs:169-192 | A global's tag is named after its last descriptor. Its scope is the scope field of the enclosing path extended by all but the last descriptor name. It has the 1-based line of its range start and the kind of its descriptors. |
| CtagsProperties.GlobalTagQualifiedName | docker-images/syntax-highlighter/crates/scip-syntax/src/ctags.rs:169-192 | A global's tag, read back as scope + "." + name, is the enclosing path followed by all of the global's names. |
| Ctags.OwnTag | docker-images/syntax-highlighter/crates/scip-syntax/src/ctags.rs:155-163 | A scope writes one tag for itself if and only if its descriptor list is non-empty. |
| CtagsProperties.OwnTagFirst | docker-images/syntax-highlighter/crates/scip-syntax/src/ctags.rs:155-163 | A named scope's first reply is its own tag, scoped by the parents' path. An unnamed scope emits only its children's and globals' tags. |
| Ctags.EmitTagsForScope | docker-images/syntax-highlighter/crates/scip-syntax/src/ctags.rs:140-193 | The number of replies is the number of named scopes in the tree plus the number of globals declared anywhere in it. |
| Ctags.EmitChildren | docker-images/syntax-highlighter/crates/scip-syntax/src/ctags.rs:165-167 | The children from index i on give as many replies as they contain named scopes plus globals. |
| Ctags.EmitGlobals | docker-images/syntax-highlighter/crates/scip-syntax/src/ctags.rs:169-192 | There is exactly one tag per global, in declaration order, each under the scope's full path. |
| CtagsProperties.EmitInOrder | docker-images/syntax-highlighter/crates/scip-syntax/src/ctags.rs:140-193 | A scope's replies are its own tag, then each child's replies in order, then its globals' tags. Children and globals are emitted under the parents' path extended by the scope's own names. |
| CtagsProperties.ChildBlockAt | docker-images/syntax-highlighter/crates/scip-syntax/src/ctags.rs:147-167 | Child k's replies form one contiguous block, emitted under the extended path. Before it come the own tag and the earlier children. After it come the later children and the globals. |
| CtagsProperties.GlobalsLast | docker-images/syntax-highlighter/crates/scip-syntax/src/ctags.rs:169-192 | A scope's last replies are its globals' tags, in order. |
| CtagsProperties.EmitStaysWithin | docker-images/syntax-highlighter/crates/scip-syntax/src/ctags.rs:140-193 | Every reply is a tag carrying the requested path and language. For a non-empty parent path, every tag's scope is that path or starts with that path followed by ".". |
| Ctags.GenerateTags | docker-images/syntax-highlighter/crates/scip-syntax/src/ctags.rs:98-123 | The result is None if and only if the file name has no extension, no parser is bundled for it, or parsing gives no root scope. Otherwise it is the tags of the whole tree under an empty path. |
| CtagsProperties.GeneratedTagsNameTheFile | docker-images/syntax-highlighter/crates/scip-syntax/src/ctags.rs:103-121 | Every reply of a successful run is a tag whose path is the bare file name, a single normal path component, and whose language is "go". |
| CtagsProperties.GenerateTagsOfChild | docker-images/syntax-highlighter/crates/scip-syntax/src/ctags.rs:103-108 | For `dir/stem.ext` with a parser for `ext` that yields a tree, the result is that tree's tags reported against `stem.ext`. |
| RustPath.FileName | docker-images/syntax-highlighter/crates/scip-syntax/src/ctags.rs:105 | A file name, when present, is a single normal component of the path: not empty, not "." or "..", no "/". |
| RustPath.FileNameOfChild | docker-images/syntax-highlighter/crates/scip-syntax/src/ctags.rs:105 | The file name of `dir/name` is `name` for any directory. |
| RustPath.FileNameIgnoresTrailing | docker-images/syntax-highlighter/crates/scip-syntax/src/ctags.rs:105 | A trailing "/" or "/." does not change the file name. |
| RustPath.Extension | docker-images/syntax-highlighter/crates/scip-syntax/src/ctags.rs:104 | An extension exists only with a file name. The file name is then a non-empty stem, a ".", and the extension, which has no dot. With no extension, the file name has no "." after its first character. |
| RustPath.ExtensionOfChild | docker-images/syntax-highlighter/crates/scip-syntax/src/ctags.rs:104-105 | `dir/stem.ext` has file name `stem.ext` and extension `ext`. |

## Left out

- Tracing: `trace.New`, `tr.Finish` and `tr.LogFields` are not modelled as effects. `tr.SetError` is recorded, and the stat hook is modelled only as the fields it builds.
- The stat hook's invocation is not modelled: when `streamhttp` calls it and how the writer encodes frames are internal to that package.
- `handlerutil.GetRepoAndRev`, `gitserver.StreamBlameFile` and `authz.DefaultSubRepoPermsChecker` are foreign code. Their answers are inputs in `Backend`.
- StreamBlameProperties.ResolveErrorIgnored: holds only when the resolver still returns a repository. When it returns a nil repository, the source reads `repo.Name` at stream_blame.go:70 once the writer is open and panics. That panic is not modelled: the model always has a repository name to hand to the reader.
- StreamBlame.Frames lists the frames handed to `streamWriter.Event`, not the frames delivered. A "hunk" frame whose Event failed is still listed. So is the "done" frame, whose Event result the source discards; `Backend` has no way to make that Event fail.
- StreamBlame.Serve: when the given read outcomes run out before a done or error outcome, the transcript stops there. This stands for a producer that has not answered yet. Unbounded streams are not modelled.
- StreamBlame.Milliseconds: Go's int64 range is not modelled. Durations and byte counts are unbounded integers.
- GoHtml.UnescapeEntities decodes only the five entities `html.EscapeString` produces. It is a partner for the round trip, not a model of `html.UnescapeString`.
- JSON serialisation of replies (`serde`), the `BufWriter`, and `Reply::write` are not modelled. The model returns the replies in the order they are written.
- Parsing is not modelled: `get_globals` and tree-sitter are a parameter, and `BundledParser::get_parser_from_extension` is a map parameter.
- Ctags.GenerateTags: the debug-build `panic!` on a parse error is not modelled. The release behaviour, returning None, is.
- Ctags.GenerateTags: the `to_str` failure on non-UTF-8 path components is not modelled, because strings here are sequences of characters.
- Ctags.EmitTagsForScope: requires a well-formed tree, meaning every named scope and every global has a range and every global has a descriptor. On other trees the source panics on an out-of-bounds index or an `unwrap` of None.
- Ctags.Line: models the release build's wrapping add. A debug build would panic on a start of -1.
- Ctags.DescriptorsToKind: the source's `Suffix::Package => "package"` arm is left out. In the SCIP protocol `Package` is a deprecated alias with `Namespace`'s wire value, so the arm matches the same value as the "namespace" arm before it and never fires. The program never emits the kind "package", and neither does the model.
- The `TagKind` and `TagEntry` types and the `Request` command are not used by tag generation and are not modelled.
- Request parsing and the `Program`, `Completed` and `Error` replies belong to the command loop that calls `generate_tags`. Only their shape is modelled.
- `RustPath` covers Unix paths only: '/' is the sole separator and there are no path prefixes.
