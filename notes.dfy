/** Note selection: Markdown files under a `notes` directory, without those that
    are marked `spaced: true` unless every note is asked for. The older finder reads
    metadata through its own reader; where that reader gives the mapping the current
    one gives, the two finders agree. */
module Notes {
  import opened Util
  import opened Yaml
  import opened Walk

  datatype SpacedError = ReadFailed(cause: ReadError) | NotABool

  /** `is_spaced`: a read error is passed on, a missing key is false, a non-boolean
      value is an error. */
  function IsSpaced(file: Option<seq<string>>, parse: string -> Option<Mapping>): (r: Result<bool, SpacedError>)
    ensures ReadMeta(file, parse).Err? ==> r == Err(ReadFailed(ReadMeta(file, parse).error))
    ensures ReadMeta(file, parse).Ok? ==>
              var fm := ReadMeta(file, parse).value;
              && (StrKey("spaced") !in fm ==> r == Ok(false))
              && (StrKey("spaced") in fm ==> (r.Ok? <==> fm[StrKey("spaced")].Bool?))
              && (r.Ok? && StrKey("spaced") in fm ==> r.value == fm[StrKey("spaced")].b)
  {
    match ReadMeta(file, parse)
    case Err(e) => Err(ReadFailed(e))
    case Ok(fm) =>
      match Lookup(fm, "spaced")
      case Some(v) => if AsBool(v).Some? then Ok(AsBool(v).value) else Err(NotABool)
      case None => Ok(false)
  }

  /** Whether `get_notes` keeps an entry; the spaced test runs only for Markdown files
      under `notes`, and not at all when every note is asked for. */
  function KeepNote(e: WalkEntry, all: bool, parse: string -> Option<Mapping>): (r: Result<bool, Panic>)
    ensures !MarkdownUnder(e, "notes") ==> r == Ok(false)
    ensures MarkdownUnder(e, "notes") && all ==> r == Ok(true)
    ensures r.Err? <==> MarkdownUnder(e, "notes") && !all && IsSpaced(e.file, parse).Err?
    ensures r == Ok(true) && !all ==> IsSpaced(e.file, parse) == Ok(false)
  {
    if !MarkdownUnder(e, "notes") then Ok(false)
    else if all then Ok(true)
    else match IsSpaced(e.file, parse)
      case Err(_) => Err(Panic)
      case Ok(spaced) => Ok(!spaced)
  }

  /** `get_notes`: the kept entries in walk order; a failed spaced test panics. */
  function GetNotes(walk: seq<WalkEntry>, all: bool, parse: string -> Option<Mapping>): (r: Result<seq<WalkEntry>, Panic>)
    ensures r.Err? <==> exists i :: 0 <= i < |walk| && KeepNote(walk[i], all, parse).Err?
    ensures r.Ok? ==> forall e :: e in r.value <==> e in walk && KeepNote(e, all, parse) == Ok(true)
  {
    if walk == [] then Ok([])
    else
      var front := walk[..|walk| - 1];
      var e := walk[|walk| - 1];
      assert walk == front + [e];
      assert forall i :: 0 <= i < |front| ==> front[i] == walk[i];
      match GetNotes(front, all, parse)
      case Err(_) => Err(Panic)
      case Ok(kept) =>
        match KeepNote(e, all, parse)
        case Err(_) =>
          assert KeepNote(walk[|walk| - 1], all, parse).Err?;
          Err(Panic)
        case Ok(keep) => if keep then Ok(kept + [e]) else Ok(kept)
  }

  /** With `all` no file is read: every Markdown file under `notes` is kept, and
      walk errors, failed canonicalisation and other files are skipped. */
  lemma AllNotesKeepsEveryNoteFile(walk: seq<WalkEntry>, parse: string -> Option<Mapping>)
    ensures GetNotes(walk, true, parse).Ok?
    ensures forall e :: e in GetNotes(walk, true, parse).value <==> e in walk && MarkdownUnder(e, "notes")
  {
  }

  /** Without `all`, a note is never kept when it says `spaced: true`. */
  lemma SpacedNotesAreHidden(walk: seq<WalkEntry>, parse: string -> Option<Mapping>, e: WalkEntry)
    requires GetNotes(walk, false, parse).Ok?
    requires e.Entry? && IsSpaced(e.file, parse) == Ok(true)
    ensures e !in GetNotes(walk, false, parse).value
  {
  }

  // ---------------------------------------------------------------------------
  // The older note finder

  datatype LegacySpacedError = LegacyRead(cause: ReadError) | LegacyValueError

  /** The metadata reader of the older finder (`crate::frontmatter::read_fm`, which is
      not part of this model): a file's block as a YAML value of any shape, or the
      reason it cannot be read. */
  type LegacyReader = Option<seq<string>> -> Result<Value, ReadError>

  /** `spaced` of the older finder: `fm.get("spaced")` indexes the value by a string,
      so a value that is not a mapping has no `spaced` entry. */
  function LegacySpaced(file: Option<seq<string>>, read: LegacyReader): (r: Result<bool, LegacySpacedError>)
    ensures read(file).Err? ==> r == Err(LegacyRead(read(file).error))
    ensures read(file).Ok? && !read(file).value.Mapping? ==> r == Ok(false)
    ensures read(file).Ok? && Get(read(file).value, "spaced").None? ==> r == Ok(false)
    ensures r.Ok? && read(file).Ok? && Get(read(file).value, "spaced").Some? ==>
              Get(read(file).value, "spaced") == Some(Bool(r.value))
    ensures r == Err(LegacyValueError) <==>
              read(file).Ok? && Get(read(file).value, "spaced").Some? && !Get(read(file).value, "spaced").value.Bool?
  {
    match read(file)
    case Err(e) => Err(LegacyRead(e))
    case Ok(fm) =>
      match Get(fm, "spaced")
      case Some(Bool(b)) => Ok(b)
      case Some(_) => Err(LegacyValueError)
      case None => Ok(false)
  }

  /** The older reader gives, for `file`, the mapping the current reader gives, or the
      same read error. */
  predicate ReadsAlike(file: Option<seq<string>>, read: LegacyReader, parse: string -> Option<Mapping>)
  {
    match ReadMeta(file, parse)
    case Ok(fm) => read(file) == Ok(Mapping(fm))
    case Err(e) => read(file) == Err(e)
  }

  /** Where the two readers agree, the two spaced tests agree, up to the name of the
      error. */
  lemma SpacedTestsAgree(file: Option<seq<string>>, read: LegacyReader, parse: string -> Option<Mapping>)
    requires ReadsAlike(file, read, parse)
    ensures IsSpaced(file, parse).Ok? <==> LegacySpaced(file, read).Ok?
    ensures IsSpaced(file, parse).Ok? ==> IsSpaced(file, parse).value == LegacySpaced(file, read).value
    ensures IsSpaced(file, parse) == Err(NotABool) <==> LegacySpaced(file, read) == Err(LegacyValueError)
  {
  }

  function LegacyKeepNote(e: WalkEntry, all: bool, read: LegacyReader): Result<bool, Panic>
  {
    if !MarkdownUnder(e, "notes") then Ok(false)
    else if all then Ok(true)
    else match LegacySpaced(e.file, read)
      case Err(_) => Err(Panic)
      case Ok(spaced) => Ok(!spaced)
  }

  /** `get_notes` of the older finder. */
  function LegacyGetNotes(walk: seq<WalkEntry>, all: bool, read: LegacyReader): (r: Result<seq<WalkEntry>, Panic>)
    ensures r.Ok? ==> |r.value| <= |walk|
  {
    if walk == [] then Ok([])
    else
      match LegacyGetNotes(walk[..|walk| - 1], all, read)
      case Err(_) => Err(Panic)
      case Ok(kept) =>
        match LegacyKeepNote(walk[|walk| - 1], all, read)
        case Err(_) => Err(Panic)
        case Ok(keep) => if keep then Ok(kept + [walk[|walk| - 1]]) else Ok(kept)
  }

  /** Where the two readers agree on every walked file, both finders select the same
      notes, in the same order, and panic on the same walks. */
  lemma {:induction false} FindersAgree(walk: seq<WalkEntry>, all: bool, read: LegacyReader,
                                        parse: string -> Option<Mapping>)
    requires forall i :: 0 <= i < |walk| && walk[i].Entry? ==> ReadsAlike(walk[i].file, read, parse)
    ensures LegacyGetNotes(walk, all, read) == GetNotes(walk, all, parse)
  {
    if walk != [] {
      FindersAgree(walk[..|walk| - 1], all, read, parse);
      var e := walk[|walk| - 1];
      if e.Entry? {
        SpacedTestsAgree(e.file, read, parse);
      }
    }
  }

  /** A block that is valid YAML but not a mapping: the older finder keeps the note,
      while the current one, whose parser accepts only a mapping, panics. */
  lemma NonMappingBlockSplitsFinders(e: WalkEntry, read: LegacyReader, parse: string -> Option<Mapping>)
    requires MarkdownUnder(e, "notes")
    requires read(e.file).Ok? && !read(e.file).value.Mapping?
    requires ReadMeta(e.file, parse).Err?
    ensures LegacyKeepNote(e, false, read) == Ok(true)
    ensures KeepNote(e, false, parse) == Err(Panic)
  {
  }
}
