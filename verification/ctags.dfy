/** The ctags mode of the scip-syntax crate: a tree of scopes found in a file
    is turned into one "tag" reply per named scope and one per global symbol.
    Replies are modelled as the values the crate serialises, in the order it
    writes them; the JSON encoding and the buffered writer are not part of
    the model. */
module Ctags {
  import opened Wrappers
  import Text
  import RustPath

  /** Rust `i32`, the element type of a scope's range. */
  newtype i32 = x: int | -0x8000_0000 <= x < 0x8000_0000

  /** 2^64: `usize` on the 64-bit targets the highlighter is built for. */
  const UsizeModulus: int := 0x1_0000_0000_0000_0000

  /** The language written into every tag, whatever the file's language. */
  const TagLanguage: string := "go"

  /** The descriptor suffix of the SCIP protocol, one variant per wire value.
      The protocol's deprecated `Package` is an alias with `Namespace`'s wire
      value, so a `Package` suffix arrives as `Namespace`. `UnknownSuffix`
      stands for a wire value the generated enum does not name. */
  datatype Suffix =
    | UnspecifiedSuffix | Namespace | Type | Term | Method
    | TypeParameter | Parameter | Meta | Local | Macro
    | UnknownSuffix(code: int)

  datatype Descriptor = Descriptor(name: string, disambiguator: string, suffix: Suffix)

  /** A symbol declared directly in a scope. */
  datatype Global = Global(descriptors: seq<Descriptor>, range: seq<i32>)

  /** A scope with the scopes nested in it and the globals it declares; the
      root scope of a file has no descriptors. */
  datatype Scope = Scope(
    descriptors: seq<Descriptor>,
    range: seq<i32>,
    children: seq<Scope>,
    globals: seq<Global>)

  /** One ctags entry; `line` is the 1-based line of the range start, which
      wraps to 0 for a start of -1 (see `Line`). */
  datatype Tag = Tag(
    name: string,
    path: string,
    language: string,
    line: nat,
    kind: string,
    scope: Option<string>)

  /** The messages of the ctags protocol. */
  datatype Reply =
    | Program(name: string, version: string)
    | Completed(command: string)
    | Error(message: string, fatal: bool)
    | TagReply(tag: Tag)

  /** The kinds a tag can carry. The source's "package" arm matches the
      same value as the "namespace" arm before it and is never reached. */
  const Kinds: set<string> := {"namespace", "method", "type", "variable"}

  /** `enum_value_or_default`: a suffix the enum does not know reads as the
      default, `UnspecifiedSuffix`. */
  function KnownSuffix(s: Suffix): Suffix {
    if s.UnknownSuffix? then UnspecifiedSuffix else s
  }

  /** The suffix the kind is read from: that of the last descriptor, or the
      default descriptor's when there is none. */
  function LastSuffix(ds: seq<Descriptor>): Suffix {
    if |ds| == 0 then UnspecifiedSuffix else KnownSuffix(ds[|ds| - 1].suffix)
  }

  /** `descriptors_to_kind`. */
  function DescriptorsToKind(ds: seq<Descriptor>): (kind: string)
    ensures kind in Kinds
  {
    match LastSuffix(ds)
    case Namespace => "namespace"
    case Method => "method"
    case Type => "type"
    case _ => "variable"
  }

  /** The names of a descriptor list, in order. */
  function Names(ds: seq<Descriptor>): (names: seq<string>)
    ensures |names| == |ds|
    ensures forall i :: 0 <= i < |ds| ==> names[i] == ds[i].name
  {
    seq(|ds|, i requires 0 <= i < |ds| => ds[i].name)
  }

  /** `range[0] as usize + 1`: the cast sign-extends, and the addition wraps
      as it does in a release build, so a start line of -1 gives line 0 and
      a more negative one gives a huge line. */
  function Line(start: i32): (line: nat)
    ensures line < UsizeModulus
    ensures start >= 0 ==> line == start as int + 1
    ensures line == 0 <==> start == -1
    ensures start < -1 ==> line == UsizeModulus + start as int + 1
  {
    ((start as int) % UsizeModulus + 1) % UsizeModulus
  }

  /** The optional scope field of a tag: absent for an empty path, otherwise
      the path joined by ".". */
  function ScopeField(path: seq<string>): (r: Option<string>)
    ensures r.None? <==> path == []
    ensures r.Some? ==> r.value == Text.Join(path, ".")
  {
    if path == [] then None else Some(Text.Join(path, "."))
  }

  /** A tree the emitter can walk without panicking: every named scope and
      every global has a range to read the line from, and every global has a
      last descriptor to take its name from. */
  predicate WellFormed(s: Scope)
    decreases s
  {
    && (s.descriptors != [] ==> |s.range| > 0)
    && (forall g :: g in s.globals ==> |g.descriptors| > 0 && |g.range| > 0)
    && (forall c :: c in s.children ==> WellFormed(c))
  }

  /** `Reply::write_tag`: the tag of a named scope. */
  function WriteTag(s: Scope, path: string, language: string, tagScope: Option<string>): (r: Reply)
    requires |s.range| > 0
    ensures r.TagReply?
    ensures r.tag.path == path && r.tag.language == language && r.tag.scope == tagScope
    ensures r.tag.line == Line(s.range[0]) && r.tag.kind == DescriptorsToKind(s.descriptors)
    ensures r.tag.name == Text.Join(Names(s.descriptors), ".")
  {
    TagReply(Tag(
      Text.Join(Names(s.descriptors), "."),
      path,
      language,
      Line(s.range[0]),
      DescriptorsToKind(s.descriptors),
      tagScope))
  }

  /** The tag of a global declared in a scope whose full path is `curr`: its
      name is the last descriptor's, and its scope is the path extended by
      the global's other descriptors. */
  function GlobalTag(g: Global, curr: seq<string>, path: string, language: string): (r: Reply)
    requires |g.descriptors| > 0 && |g.range| > 0
    ensures r.TagReply?
    ensures r.tag.path == path && r.tag.language == language
    ensures r.tag.line == Line(g.range[0]) && r.tag.kind == DescriptorsToKind(g.descriptors)
    ensures r.tag.name == g.descriptors[|g.descriptors| - 1].name
    ensures r.tag.scope == ScopeField(curr + Names(g.descriptors[..|g.descriptors| - 1]))
  {
    var n := |g.descriptors|;
    TagReply(Tag(
      g.descriptors[n - 1].name,
      path,
      language,
      Line(g.range[0]),
      DescriptorsToKind(g.descriptors),
      ScopeField(curr + Names(g.descriptors[..n - 1]))))
  }

  /** The number of named scopes in a tree, the root included. */
  function NamedScopes(s: Scope): nat
    decreases s, 1
  {
    (if s.descriptors == [] then 0 else 1) + NamedScopesFrom(s, 0)
  }

  /** The named scopes in the children of `s` from index `i` on. */
  function NamedScopesFrom(s: Scope, i: nat): nat
    requires i <= |s.children|
    decreases s, 0, |s.children| - i
  {
    if i == |s.children| then 0 else NamedScopes(s.children[i]) + NamedScopesFrom(s, i + 1)
  }

  /** The number of globals declared anywhere in a tree. */
  function Globals(s: Scope): nat
    decreases s, 1
  {
    |s.globals| + GlobalsFrom(s, 0)
  }

  /** The globals in the children of `s` from index `i` on. */
  function GlobalsFrom(s: Scope, i: nat): nat
    requires i <= |s.children|
    decreases s, 0, |s.children| - i
  {
    if i == |s.children| then 0 else Globals(s.children[i]) + GlobalsFrom(s, i + 1)
  }

  /** The tag a scope writes for itself under the parents' path: one when
      it is named, none for an unnamed scope such as a file's root. */
  function OwnTag(path: string, parents: seq<string>, s: Scope, language: string): (r: seq<Reply>)
    requires WellFormed(s)
    ensures |r| == (if s.descriptors == [] then 0 else 1)
  {
    if s.descriptors == [] then [] else [WriteTag(s, path, language, ScopeField(parents))]
  }

  /** `emit_tags_for_scope`: the scope's own tag when it is named, then the
      tags of its children under the path extended by its names, then the
      tags of its globals. One tag per named scope and one per global. */
  function EmitTagsForScope(path: string, parents: seq<string>, s: Scope, language: string): (r: seq<Reply>)
    requires WellFormed(s)
    ensures |r| == NamedScopes(s) + Globals(s)
    decreases s, 1
  {
    var curr := parents + Names(s.descriptors);
    OwnTag(path, parents, s, language) + EmitChildren(path, curr, s, 0, language) + EmitGlobals(path, curr, s.globals, language)
  }

  /** The tags of the children of `s` from index `i` on, in order. */
  function EmitChildren(path: string, curr: seq<string>, s: Scope, i: nat, language: string): (r: seq<Reply>)
    requires WellFormed(s) && i <= |s.children|
    ensures |r| == NamedScopesFrom(s, i) + GlobalsFrom(s, i)
    decreases s, 0, |s.children| - i
  {
    if i == |s.children| then []
    else
      assert s.children[i] in s.children;
      EmitTagsForScope(path, curr, s.children[i], language) + EmitChildren(path, curr, s, i + 1, language)
  }

  /** The tags of the globals of one scope, in declaration order. */
  function EmitGlobals(path: string, curr: seq<string>, gs: seq<Global>, language: string): (r: seq<Reply>)
    requires forall g :: g in gs ==> |g.descriptors| > 0 && |g.range| > 0
    ensures |r| == |gs|
    ensures forall j :: 0 <= j < |gs| ==> r[j] == GlobalTag(gs[j], curr, path, language)
  {
    seq(|gs|, j requires 0 <= j < |gs| => assert gs[j] in gs; GlobalTag(gs[j], curr, path, language))
  }

  /** A SCIP parser bundled with the highlighter. */
  datatype Parser = Parser(language: string)

  /** What `get_globals` yields: nothing, a parse error, or the root scope. */
  datatype GlobalsResult = NoGlobals | ParseFailed(message: string) | Parsed(root: Scope)

  /** The one root scope `generate_tags` walks, when parsing yields one, is
      a tree the emitter can walk. */
  predicate ParsedTreeWellFormed(
    filename: string,
    fileData: seq<bv8>,
    parserFor: map<string, Parser>,
    getGlobals: (Parser, seq<bv8>) -> GlobalsResult)
  {
    match RustPath.Extension(filename)
    case None => true
    case Some(ext) =>
      || ext !in parserFor
      || !getGlobals(parserFor[ext], fileData).Parsed?
      || WellFormed(getGlobals(parserFor[ext], fileData).root)
  }

  /** `generate_tags`: None when the file name has no extension, no parser is
      bundled for the extension, or parsing yields no root scope; otherwise
      the tags of the whole tree, reported against the bare file name and
      the language "go". */
  function GenerateTags(
    filename: string,
    fileData: seq<bv8>,
    parserFor: map<string, Parser>,
    getGlobals: (Parser, seq<bv8>) -> GlobalsResult): (r: Option<seq<Reply>>)
    requires ParsedTreeWellFormed(filename, fileData, parserFor, getGlobals)
    ensures r.None? <==>
      || RustPath.Extension(filename).None?
      || RustPath.Extension(filename).value !in parserFor
      || !getGlobals(parserFor[RustPath.Extension(filename).value], fileData).Parsed?
    ensures r.Some? ==>
      var root := getGlobals(parserFor[RustPath.Extension(filename).value], fileData).root;
      r.value == EmitTagsForScope(RustPath.FileName(filename).value, [], root, TagLanguage)
  {
    match RustPath.Extension(filename)
    case None => None
    case Some(extension) =>
      var filepath := RustPath.FileName(filename).value;
      if extension !in parserFor then None
      else
        match getGlobals(parserFor[extension], fileData)
        case NoGlobals => None
        case ParseFailed(_) => None
        case Parsed(root) => Some(EmitTagsForScope(filepath, [], root, TagLanguage))
  }
}
