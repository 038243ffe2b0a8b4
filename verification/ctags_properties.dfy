/** Properties of the ctags emitter: what kind a tag gets, how a tag's scope
    and name reassemble the symbol's dotted path, the order in which a tree's
    tags come out, and what `generate_tags` reports against. */
module CtagsProperties {
  import opened Wrappers
  import Text
  import RustPath
  import opened Ctags

  /** The kind names the last descriptor's suffix exactly: each of the three
      named kinds comes from one suffix, and every other suffix, a suffix
      the enum does not know and an empty descriptor list read "variable".
      No descriptor list gets "package". */
  lemma KindOfDescriptors(ds: seq<Descriptor>)
    ensures DescriptorsToKind(ds) == "namespace" <==> |ds| > 0 && ds[|ds| - 1].suffix == Namespace
    ensures DescriptorsToKind(ds) == "method" <==> |ds| > 0 && ds[|ds| - 1].suffix == Method
    ensures DescriptorsToKind(ds) == "type" <==> |ds| > 0 && ds[|ds| - 1].suffix == Type
    ensures DescriptorsToKind(ds) == "variable" <==>
      |ds| == 0 || ds[|ds| - 1].suffix !in {Namespace, Method, Type}
    ensures DescriptorsToKind(ds) != "package"
  {
  }

  /** The scope field of a path whose names contain no "." splits back into
      that path. */
  lemma ScopeFieldSplits(path: seq<string>)
    requires path != []
    requires forall i :: 0 <= i < |path| ==> '.' !in path[i]
    ensures Text.Split(ScopeField(path).value, '.') == path
  {
    Text.SplitJoin(path, '.');
  }

  /** The dotted path a tag stands for: its scope, a ".", and its name, or
      just its name when it has no scope. */
  function QualifiedName(t: Tag): string {
    match t.scope
    case None => t.name
    case Some(sc) => sc + "." + t.name
  }

  /** A named scope's tag, written under the parents' path, stands for the
      parents' names followed by all of the scope's own names. */
  lemma OwnTagQualifiedName(s: Scope, parents: seq<string>, path: string, language: string)
    requires |s.range| > 0 && s.descriptors != []
    ensures QualifiedName(WriteTag(s, path, language, ScopeField(parents)).tag)
         == Text.Join(parents + Names(s.descriptors), ".")
  {
    if parents != [] {
      Text.JoinAppend(parents, Names(s.descriptors), ".");
    } else {
      assert parents + Names(s.descriptors) == Names(s.descriptors);
    }
  }

  /** A global's tag stands for the enclosing scope's path followed by all of
      the global's names: the last one is the tag's name and the others
      extend its scope. */
  lemma GlobalTagQualifiedName(g: Global, curr: seq<string>, path: string, language: string)
    requires |g.descriptors| > 0 && |g.range| > 0
    ensures QualifiedName(GlobalTag(g, curr, path, language).tag)
         == Text.Join(curr + Names(g.descriptors), ".")
  {
    var n := |g.descriptors|;
    var front := curr + Names(g.descriptors[..n - 1]);
    var last := g.descriptors[n - 1].name;
    assert Names(g.descriptors) == Names(g.descriptors[..n - 1]) + [last];
    assert curr + Names(g.descriptors) == front + [last];
    if front != [] {
      Text.JoinAppend(front, [last], ".");
    } else {
      assert front + [last] == [last];
    }
  }

  /** The scope field `scope` lies within `parents`: for a non-empty parents'
      path it is that path itself or starts with that path and a ".". */
  ghost predicate Within(parents: seq<string>, scope: Option<string>) {
    parents != [] ==>
      && scope.Some?
      && (scope.value == Text.Join(parents, ".")
          || Text.HasPrefix(scope.value, Text.Join(parents, ".") + "."))
  }

  /** A reply emitted for a tree under `parents`: a tag naming the file and
      language it was asked for, with a scope within the parents' path. */
  ghost predicate EmittedUnder(path: string, language: string, parents: seq<string>, r: Reply) {
    && r.TagReply?
    && r.tag.path == path
    && r.tag.language == language
    && Within(parents, r.tag.scope)
  }

  /** A scope within an extended path is within the shorter one. */
  lemma WithinExtended(parents: seq<string>, more: seq<string>, scope: Option<string>)
    requires Within(parents + more, scope)
    ensures Within(parents, scope)
  {
    if parents != [] && more != [] {
      var p, q := Text.Join(parents, "."), Text.Join(more, ".");
      Text.JoinAppend(parents, more, ".");
      assert Text.Join(parents + more, ".") == p + "." + q;
      assert Text.HasPrefix(p + "." + q, p + ".") by {
        assert (p + "." + q)[..|p + "."|] == p + ".";
      }
      if scope.value != p + "." + q {
        assert Text.HasPrefix(p + "." + q + ".", p + ".") by {
          assert (p + "." + q + ".")[..|p + "."|] == p + ".";
        }
        Text.HasPrefixTransitive(scope.value, p + "." + q + ".", p + ".");
      }
    } else if parents != [] {
      assert parents + more == parents;
    }
  }

  /** The scope field of a path extending `parents` is within `parents`. */
  lemma ScopeFieldWithin(parents: seq<string>, more: seq<string>)
    ensures Within(parents, ScopeField(parents + more))
  {
    WithinExtended(parents, more, ScopeField(parents + more));
  }

  /** Every reply for a tree is a tag for the requested file and language,
      and every tag's scope lies within the path the tree was emitted
      under. */
  lemma {:induction false} EmitStaysWithin(path: string, parents: seq<string>, s: Scope, language: string)
    requires WellFormed(s)
    ensures forall k :: 0 <= k < |EmitTagsForScope(path, parents, s, language)| ==>
      EmittedUnder(path, language, parents, EmitTagsForScope(path, parents, s, language)[k])
    decreases s, 1
  {
    var curr := parents + Names(s.descriptors);
    var own := if s.descriptors == [] then [] else [WriteTag(s, path, language, ScopeField(parents))];
    var ch := EmitChildren(path, curr, s, 0, language);
    var gl := EmitGlobals(path, curr, s.globals, language);
    assert EmitTagsForScope(path, parents, s, language) == own + ch + gl;
    if s.descriptors != [] {
      ScopeFieldWithin(parents, []);
      assert parents + [] == parents;
    }
    ChildrenStayWithin(path, curr, s, 0, language);
    forall k | 0 <= k < |ch|
      ensures EmittedUnder(path, language, parents, ch[k])
    {
      WithinExtended(parents, Names(s.descriptors), ch[k].tag.scope);
    }
    forall j | 0 <= j < |gl|
      ensures EmittedUnder(path, language, parents, gl[j])
    {
      var g := s.globals[j];
      var more := Names(s.descriptors) + Names(g.descriptors[..|g.descriptors| - 1]);
      assert curr + Names(g.descriptors[..|g.descriptors| - 1]) == parents + more;
      ScopeFieldWithin(parents, more);
    }
  }

  /** The children's part of `EmitStaysWithin`. */
  lemma {:induction false} ChildrenStayWithin(path: string, curr: seq<string>, s: Scope, i: nat, language: string)
    requires WellFormed(s) && i <= |s.children|
    ensures forall k :: 0 <= k < |EmitChildren(path, curr, s, i, language)| ==>
      EmittedUnder(path, language, curr, EmitChildren(path, curr, s, i, language)[k])
    decreases s, 0, |s.children| - i
  {
    if i < |s.children| {
      assert s.children[i] in s.children;
      EmitStaysWithin(path, curr, s.children[i], language);
      ChildrenStayWithin(path, curr, s, i + 1, language);
    }
  }

  /** A named scope's first reply is its own tag, scoped by the parents'
      path; an unnamed scope (a file's root) has no tag of its own and emits
      only its children's and its globals' tags. */
  lemma OwnTagFirst(path: string, parents: seq<string>, s: Scope, language: string)
    requires WellFormed(s)
    ensures s.descriptors != [] ==>
      EmitTagsForScope(path, parents, s, language)[0] == WriteTag(s, path, language, ScopeField(parents))
    ensures s.descriptors == [] ==>
      EmitTagsForScope(path, parents, s, language)
        == EmitChildren(path, parents, s, 0, language) + EmitGlobals(path, parents, s.globals, language)
  {
    if s.descriptors == [] {
      assert parents + Names(s.descriptors) == parents;
    }
  }

  /** The last replies of a scope are its globals' tags, in declaration
      order, each under the path extended by the scope's names. */
  lemma GlobalsLast(path: string, parents: seq<string>, s: Scope, language: string)
    requires WellFormed(s)
    ensures var r := EmitTagsForScope(path, parents, s, language);
      && |s.globals| <= |r|
      && r[|r| - |s.globals|..] == EmitGlobals(path, parents + Names(s.descriptors), s.globals, language)
  {
    var r := EmitTagsForScope(path, parents, s, language);
    var curr := parents + Names(s.descriptors);
    var front := OwnTag(path, parents, s, language) + EmitChildren(path, curr, s, 0, language);
    var gl := EmitGlobals(path, curr, s.globals, language);
    assert r == front + gl;
    assert r[|front|..] == gl;
  }

  /** Blocks of replies written one after the other. */
  function Flatten<T>(blocks: seq<seq<T>>): (r: seq<T>)
    decreases |blocks|
  {
    if |blocks| == 0 then [] else blocks[0] + Flatten(blocks[1..])
  }

  /** Flattening distributes over concatenation. */
  lemma {:induction false} FlattenAppend<T>(a: seq<seq<T>>, b: seq<seq<T>>)
    ensures Flatten(a + b) == Flatten(a) + Flatten(b)
    decreases |a|
  {
    if |a| == 0 {
      assert a + b == b;
    } else {
      assert (a + b)[0] == a[0];
      assert (a + b)[1..] == a[1..] + b;
      FlattenAppend(a[1..], b);
    }
  }

  /** Block `k` sits between the blocks before it and the blocks after it. */
  lemma FlattenAround<T>(blocks: seq<seq<T>>, k: nat)
    requires k < |blocks|
    ensures Flatten(blocks) == Flatten(blocks[..k]) + blocks[k] + Flatten(blocks[k + 1..])
  {
    SeqAround(blocks, k);
    FlattenAppend(blocks[..k], [blocks[k]] + blocks[k + 1..]);
    FlattenCons(blocks[k], blocks[k + 1..]);
  }

  /** A sequence is what comes before position `k`, the element there, and
      what comes after it. */
  lemma SeqAround<T>(xs: seq<T>, k: nat)
    requires k < |xs|
    ensures xs == xs[..k] + ([xs[k]] + xs[k + 1..])
  {
  }

  /** A block followed by more blocks flattens to the block, then the rest. */
  lemma FlattenCons<T>(x: seq<T>, rest: seq<seq<T>>)
    ensures Flatten([x] + rest) == x + Flatten(rest)
  {
    assert ([x] + rest)[1..] == rest;
  }

  /** The replies of each child of `s`, emitted under `curr`. */
  function ChildBlocks(path: string, curr: seq<string>, s: Scope, language: string): (blocks: seq<seq<Reply>>)
    requires WellFormed(s)
    ensures |blocks| == |s.children|
    ensures forall k :: 0 <= k < |blocks| ==>
      s.children[k] in s.children && blocks[k] == EmitTagsForScope(path, curr, s.children[k], language)
  {
    seq(|s.children|, k requires 0 <= k < |s.children| =>
      assert s.children[k] in s.children;
      EmitTagsForScope(path, curr, s.children[k], language))
  }

  /** The children from index `i` on are emitted as their blocks in order. */
  lemma {:induction false} EmitChildrenFlattens(path: string, curr: seq<string>, s: Scope, i: nat, language: string)
    requires WellFormed(s) && i <= |s.children|
    ensures EmitChildren(path, curr, s, i, language) == Flatten(ChildBlocks(path, curr, s, language)[i..])
    decreases |s.children| - i
  {
    var blocks := ChildBlocks(path, curr, s, language);
    if i < |s.children| {
      EmitChildrenFlattens(path, curr, s, i + 1, language);
      assert blocks[i..][0] == blocks[i];
      assert blocks[i..][1..] == blocks[i + 1..];
    }
  }

  /** A scope's replies are its own tag, then the replies of each child in
      order, each emitted under the path extended by the scope's own names,
      then its globals' tags. */
  lemma EmitInOrder(path: string, parents: seq<string>, s: Scope, language: string)
    requires WellFormed(s)
    ensures var curr := parents + Names(s.descriptors);
      EmitTagsForScope(path, parents, s, language)
        == OwnTag(path, parents, s, language)
           + Flatten(ChildBlocks(path, curr, s, language))
           + EmitGlobals(path, curr, s.globals, language)
  {
    var curr := parents + Names(s.descriptors);
    EmitChildrenFlattens(path, curr, s, 0, language);
    assert ChildBlocks(path, curr, s, language)[0..] == ChildBlocks(path, curr, s, language);
  }

  /** Child `k`'s replies form one block: everything before it is the
      scope's own tag and the earlier children's blocks, everything after it
      the later children's blocks and the globals' tags. */
  lemma ChildBlockAt(path: string, parents: seq<string>, s: Scope, k: nat, language: string)
    requires WellFormed(s) && k < |s.children|
    ensures s.children[k] in s.children
    ensures var curr := parents + Names(s.descriptors);
      var blocks := ChildBlocks(path, curr, s, language);
      EmitTagsForScope(path, parents, s, language)
        == (OwnTag(path, parents, s, language) + Flatten(blocks[..k]))
           + EmitTagsForScope(path, curr, s.children[k], language)
           + (Flatten(blocks[k + 1..]) + EmitGlobals(path, curr, s.globals, language))
  {
    var curr := parents + Names(s.descriptors);
    var blocks := ChildBlocks(path, curr, s, language);
    EmitInOrder(path, parents, s, language);
    FlattenAround(blocks, k);
    Regroup(OwnTag(path, parents, s, language), Flatten(blocks), EmitGlobals(path, curr, s.globals, language),
            Flatten(blocks[..k]), blocks[k], Flatten(blocks[k + 1..]));
  }

  /** Re-bracketing a concatenation around a middle block. */
  lemma Regroup<T>(front: seq<T>, mid: seq<T>, back: seq<T>, before: seq<T>, x: seq<T>, after: seq<T>)
    requires mid == before + x + after
    ensures front + mid + back == (front + before) + x + (after + back)
  {
  }

  /** Every reply `generate_tags` produces is a tag reported against the bare
      file name, a normal name taken from the file's path, in language
      "go". */
  lemma GeneratedTagsNameTheFile(
    filename: string,
    fileData: seq<bv8>,
    parserFor: map<string, Parser>,
    getGlobals: (Parser, seq<bv8>) -> GlobalsResult)
    requires ParsedTreeWellFormed(filename, fileData, parserFor, getGlobals)
    ensures var r := GenerateTags(filename, fileData, parserFor, getGlobals);
      r.Some? ==>
        && RustPath.FileName(filename).Some?
        && RustPath.IsNormalName(RustPath.FileName(filename).value)
        && forall k :: 0 <= k < |r.value| ==>
             && r.value[k].TagReply?
             && r.value[k].tag.path == RustPath.FileName(filename).value
             && r.value[k].tag.language == TagLanguage
  {
    var r := GenerateTags(filename, fileData, parserFor, getGlobals);
    if r.Some? {
      var root := getGlobals(parserFor[RustPath.Extension(filename).value], fileData).root;
      EmitStaysWithin(RustPath.FileName(filename).value, [], root, TagLanguage);
    }
  }

  /** A file `dir/stem.ext` whose extension has a parser that yields a root
      scope produces that tree's tags, reported against `stem.ext`. */
  lemma GenerateTagsOfChild(
    dir: string,
    stem: string,
    ext: string,
    fileData: seq<bv8>,
    parserFor: map<string, Parser>,
    getGlobals: (Parser, seq<bv8>) -> GlobalsResult)
    requires stem != "" && '/' !in stem && (stem != "." || ext != "")
    requires '.' !in ext && '/' !in ext
    requires ext in parserFor && getGlobals(parserFor[ext], fileData).Parsed?
    requires WellFormed(getGlobals(parserFor[ext], fileData).root)
    ensures RustPath.Extension(dir + "/" + stem + "." + ext) == Some(ext)
    ensures GenerateTags(dir + "/" + stem + "." + ext, fileData, parserFor, getGlobals)
         == Some(EmitTagsForScope(stem + "." + ext, [], getGlobals(parserFor[ext], fileData).root, TagLanguage))
  {
    RustPath.ExtensionOfChild(dir, stem, ext);
  }
}
