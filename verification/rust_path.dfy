/** The two accessors of Rust's `std::path::Path` that tag generation relies
    on, `file_name` and `extension`, for Unix paths where '/' is the only
    separator. A path is taken apart with `Text.Split`; empty pieces (a
    leading root, repeated or trailing separators) and "." pieces are not
    components that carry a name, exactly as `Path::components` normalises
    them away. */
module RustPath {
  import opened Wrappers
  import Text

  /** True for a string that `Path::components` reports as one normal name. */
  predicate IsNormalName(name: string) {
    name != "" && name != "." && name != ".." && '/' !in name
  }

  /** The pieces of a split path that name a component (a normal name or
      ".."), in order. */
  function NamedComponents(parts: seq<string>): (cs: seq<string>)
    ensures |cs| <= |parts|
    ensures forall x :: x in cs <==> x in parts && x != "" && x != "."
    decreases |parts|
  {
    if |parts| == 0 then []
    else
      var rest := NamedComponents(parts[1..]);
      assert parts == [parts[0]] + parts[1..];
      if parts[0] == "" || parts[0] == "." then rest else [parts[0]] + rest
  }

  /** `Path::file_name`: the last component when it is a normal name; None for
      a path with no named component ("", "/", ".") or one ending in "..". */
  function FileName(p: string): (r: Option<string>)
    ensures r.Some? ==> IsNormalName(r.value) && r.value in Text.Split(p, '/')
  {
    var cs := NamedComponents(Text.Split(p, '/'));
    if |cs| == 0 then None
    else
      var last := cs[|cs| - 1];
      assert last in cs;
      if last == ".." then None else Some(last)
  }

  /** `Path::extension`: the text after the last '.' of the file name, unless
      the file name has no '.' or its only '.' is the leading one (a hidden
      file such as ".bashrc"). */
  function Extension(p: string): (r: Option<string>)
    ensures r.Some? ==> FileName(p).Some?
    ensures r.Some? ==> '.' !in r.value
    ensures r.Some? ==> exists stem :: stem != "" && FileName(p).value == stem + "." + r.value
    ensures r.None? && FileName(p).Some? ==> '.' !in FileName(p).value[1..]
  {
    match FileName(p)
    case None => None
    case Some(f) =>
      match Text.LastIndexOf(f, '.')
      case None => None
      case Some(k) =>
        if k == 0 then None
        else
          assert f == f[..k] + "." + f[k + 1..];
          Some(f[k + 1..])
  }

  /** Filtering distributes over concatenation. */
  lemma {:induction false} NamedComponentsAppend(a: seq<string>, b: seq<string>)
    ensures NamedComponents(a + b) == NamedComponents(a) + NamedComponents(b)
    decreases |a|
  {
    if |a| == 0 {
      assert a + b == b;
    } else {
      assert (a + b)[0] == a[0];
      assert (a + b)[1..] == a[1..] + b;
      NamedComponentsAppend(a[1..], b);
    }
  }

  /** The file name of `dir/name` is `name`, whatever the directory. */
  lemma FileNameOfChild(dir: string, name: string)
    requires IsNormalName(name)
    ensures FileName(dir + "/" + name) == Some(name)
  {
    Text.SplitAround(dir, name, '/');
    Text.SplitWithoutSeparator(name, '/');
    NamedComponentsAppend(Text.Split(dir, '/'), [name]);
    assert NamedComponents([name]) == [name];
  }

  /** A bare normal name is its own file name. */
  lemma FileNameOfName(name: string)
    requires IsNormalName(name)
    ensures FileName(name) == Some(name)
  {
    Text.SplitWithoutSeparator(name, '/');
    assert NamedComponents([name]) == [name];
  }

  /** A trailing separator, or a trailing "/.", does not change the file
      name. */
  lemma FileNameIgnoresTrailing(p: string)
    ensures FileName(p + "/") == FileName(p)
    ensures FileName(p + "/.") == FileName(p)
  {
    Text.SplitAround(p, "", '/');
    assert p + "/" == p + ['/'] + "";
    NamedComponentsAppend(Text.Split(p, '/'), [""]);
    assert NamedComponents([""]) == [];
    assert Text.Split(p, '/') + [] == Text.Split(p, '/');
    assert p + "/." == p + ['/'] + ".";
    Text.SplitAround(p, ".", '/');
    Text.SplitWithoutSeparator(".", '/');
    NamedComponentsAppend(Text.Split(p, '/'), ["."]);
    assert NamedComponents(["."]) == [];
  }

  /** The file name of `dir/stem.ext` is `stem.ext` and its extension is `ext` when the stem is not empty,
      the extension contains no further dot and the name is not "..". */
  lemma ExtensionOfChild(dir: string, stem: string, ext: string)
    requires stem != "" && '/' !in stem
    requires stem != "." || ext != ""
    requires '.' !in ext && '/' !in ext
    ensures FileName(dir + "/" + stem + "." + ext) == Some(stem + "." + ext)
    ensures Extension(dir + "/" + stem + "." + ext) == Some(ext)
  {
    var name := stem + "." + ext;
    assert name[|stem|] == '.';
    assert IsNormalName(name) by {
      assert |name| >= 2;
      assert name != ".." by {
        if stem == "." { assert |name| > 2; } else { assert name[0] != '.' || |stem| > 1; }
      }
      assert forall i :: 0 <= i < |name| ==> name[i] != '/' by {
        forall i | 0 <= i < |name|
          ensures name[i] != '/'
        {
          if i < |stem| { assert name[i] == stem[i]; }
          else if i > |stem| { assert name[i] == ext[i - |stem| - 1]; }
        }
      }
    }
    assert dir + "/" + stem + "." + ext == dir + "/" + name;
    FileNameOfChild(dir, name);
    var k := Text.LastIndexOf(name, '.');
    assert k.Some?;
    assert forall j :: k.value < j < |name| ==> name[j] != '.' by {
      assert forall j :: k.value < j < |name| ==> name[j] == name[k.value + 1..][j - k.value - 1];
    }
    assert forall j :: |stem| < j < |name| ==> name[j] == ext[j - |stem| - 1];
    assert k.value == |stem|;
    assert name[|stem| + 1..] == ext;
  }
}
