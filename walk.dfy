/** Directory-walk entries as the card and note finders see them, and the path tests
    they apply: a component of the canonical path and the file-name extension. */
module Walk {
  import opened Util
  import opened Yaml
  import opened Frontmatter

  /** One item of the directory walk. `canonical` is None when canonicalising the path
      failed; `file` is None when the file cannot be opened and read as lines. */
  datatype WalkEntry =
    | WalkError
    | Entry(name: string, canonical: Option<seq<string>>, file: Option<seq<string>>)

  /** Why reading a file's metadata failed. */
  datatype ReadError = Unreadable | Malformed

  /** The position of the last `.` in a name. */
  function LastDot(s: string): (r: Option<nat>)
    ensures r.None? <==> '.' !in s
    ensures r.Some? ==> r.value < |s| && s[r.value] == '.' && '.' !in s[r.value + 1..]
  {
    if s == [] then None
    else if s[|s| - 1] == '.' then Some(|s| - 1)
    else
      var r := LastDot(s[..|s| - 1]);
      assert s == s[..|s| - 1] + [s[|s| - 1]];
      r
  }

  /** `Path::extension` of a file name: what follows the last dot, provided something
      other than nothing precedes it (and the name is not `..`). */
  function Extension(name: string): (r: Option<string>)
    ensures r.Some? ==> '.' !in r.value
    ensures r.Some? ==> |r.value| < |name| - 1 &&
                        name == name[..|name| - |r.value| - 1] + "." + r.value
  {
    if name == ".." then None
    else match LastDot(name)
      case None => None
      case Some(i) =>
        if i == 0 then None
        else
          assert name == name[..i] + "." + name[i + 1..];
          Some(name[i + 1..])
  }

  /** A dot with no dot after it is the last dot. */
  lemma {:induction false} LastDotIs(s: string, i: nat)
    requires i < |s| && s[i] == '.'
    requires forall j :: i < j < |s| ==> s[j] != '.'
    ensures LastDot(s) == Some(i)
  {
    if i < |s| - 1 {
      LastDotIs(s[..|s| - 1], i);
    }
  }

  /** A name with a non-empty stem and a dot-free extension has that extension. */
  lemma ExtensionOfName(stem: string, ext: string)
    requires stem != [] && ext != [] && '.' !in ext
    ensures Extension(stem + "." + ext) == Some(ext)
  {
    var name := stem + "." + ext;
    var i := |stem|;
    assert name[i + 1..] == ext;
    assert |name| >= 3;
    assert forall j :: i < j < |name| ==> name[j] == ext[j - i - 1];
    LastDotIs(name, i);
  }

  /** A hidden file such as `.md` has no extension. */
  lemma HiddenFileHasNoExtension(ext: string)
    requires '.' !in ext
    ensures Extension("." + ext) == None
  {
    var name := "." + ext;
    assert forall j :: 0 < j < |name| ==> name[j] == ext[j - 1];
    LastDotIs(name, 0);
  }

  /** The entry's canonical path exists and has a component exactly `dir`. */
  predicate UnderComponent(e: WalkEntry, dir: string)
  {
    e.Entry? && e.canonical.Some? && dir in e.canonical.value
  }

  /** The entry is a Markdown file under a `dir` component. */
  predicate MarkdownUnder(e: WalkEntry, dir: string)
  {
    UnderComponent(e, dir) && Extension(e.name) == Some("md")
  }

  /** `read_fm` on the entry's file: an unreadable file or a block the parser
      rejects is an error. */
  function ReadMeta(file: Option<seq<string>>, parse: string -> Option<Mapping>): (r: Result<Mapping, ReadError>)
    ensures file.None? ==> r == Err(Unreadable)
    ensures file.Some? ==> (r.Ok? <==> ParseFm(FmText(file.value), parse).Ok?)
    ensures r.Ok? ==> r.value == ParseFm(FmText(file.value), parse).value
  {
    match file
    case None => Err(Unreadable)
    case Some(ls) =>
      match ParseFm(FmText(ls), parse)
      case Err(_) => Err(Malformed)
      case Ok(m) => Ok(m)
  }
}
