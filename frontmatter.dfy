/** The frontmatter store: a Markdown file is a sequence of lines; an optional leading
    block between two `---` lines holds YAML metadata and the rest is the body.

    Reading goes through a line cursor that the frontmatter reader and the body reader
    advance in turn, as the source does with one peekable line iterator. Parsing and
    serialising YAML are outside the model: the parser is a function argument and the
    serialiser's output is an argument described by `SerializedAs`. */
module Frontmatter {
  import opened Util
  import opened Yaml

  const Delimiter: string := "---"

  /** A card or note file as the reader returns it: its metadata and its body. */
  datatype Doc = Doc(fm: Mapping, body: string)

  /** `serde_yaml::from_str` rejected the captured block. */
  datatype FmError = ParseError

  // ---------------------------------------------------------------------------
  // Lines of a file, as `BufRead::lines` produces them

  function IndexOfNewline(s: string): (i: nat)
    ensures i <= |s|
    ensures i < |s| ==> s[i] == '\n'
    ensures forall j :: 0 <= j < i ==> s[j] != '\n'
  {
    if s == [] || s[0] == '\n' then 0 else 1 + IndexOfNewline(s[1..])
  }

  /** A line ended by `\n` also loses a `\r` just before it. */
  function DropCr(l: string): string
  {
    if |l| > 0 && l[|l| - 1] == '\r' then l[..|l| - 1] else l
  }

  /** The lines of a file: split at each `\n`; a final `\n` does not start another line. */
  function SplitLines(s: string): (ls: seq<string>)
    ensures |ls| == 0 <==> s == []
    decreases |s|
  {
    if s == [] then []
    else
      var i := IndexOfNewline(s);
      if i == |s| then [s] else [DropCr(s[..i])] + SplitLines(s[i + 1..])
  }

  /** The text without one trailing newline. */
  function Chomp(s: string): string
  {
    if |s| > 0 && s[|s| - 1] == '\n' then s[..|s| - 1] else s
  }

  predicate CleanLine(l: string)
  {
    '\n' !in l && '\r' !in l
  }

  lemma NewlineAfterLine(x: string, y: string)
    requires '\n' !in x
    ensures IndexOfNewline(x + "\n" + y) == |x|
  {
    var s := x + "\n" + y;
    assert s[|x|] == '\n';
    assert forall j :: 0 <= j < |x| ==> s[j] == x[j];
  }

  /** A line followed by a newline is read back as that line. */
  lemma LinesOfLine(x: string, y: string)
    requires '\n' !in x
    ensures SplitLines(x + "\n" + y) == [DropCr(x)] + SplitLines(y)
  {
    var s := x + "\n" + y;
    NewlineAfterLine(x, y);
    assert s[..|x|] == x;
    assert s[|x| + 1..] == y;
  }

  lemma DropCrClean(l: string)
    requires '\r' !in l
    ensures DropCr(l) == l
  {
    if |l| > 0 {
      assert l[|l| - 1] in l;
    }
  }

  lemma JoinThenNewline(ls: seq<string>, y: string)
    requires |ls| > 1
    ensures JoinWith(ls, "\n") + "\n" + y == ls[0] + "\n" + (JoinWith(ls[1..], "\n") + "\n" + y)
  {
  }

  /** A clean line joined in front of more lines is read back first. */
  lemma LinesOfJoinStep(a: string, rest: seq<string>, y: string)
    requires CleanLine(a) && rest != []
    ensures SplitLines(JoinWith([a] + rest, "\n") + "\n" + y) ==
            [a] + SplitLines(JoinWith(rest, "\n") + "\n" + y)
  {
    var tail := JoinWith(rest, "\n") + "\n" + y;
    DropCrClean(a);
    assert ([a] + rest)[1..] == rest;
    JoinThenNewline([a] + rest, y);
    assert JoinWith([a] + rest, "\n") + "\n" + y == a + "\n" + tail;
    LinesOfLine(a, tail);
  }

  /** Lines joined with newlines and ended by one are read back unchanged. */
  lemma {:induction false} LinesOfJoin(ls: seq<string>, y: string)
    requires |ls| > 0
    requires forall i :: 0 <= i < |ls| ==> CleanLine(ls[i])
    ensures SplitLines(JoinWith(ls, "\n") + "\n" + y) == ls + SplitLines(y)
  {
    if |ls| == 1 {
      LinesOfOneLine(ls, y);
    } else {
      CleanTail(ls);
      LinesOfJoin(ls[1..], y);
      LinesOfJoinStep(ls[0], ls[1..], y);
      ConsAppend(ls, SplitLines(y));
    }
  }

  lemma LinesOfOneLine(ls: seq<string>, y: string)
    requires |ls| == 1 && CleanLine(ls[0])
    ensures SplitLines(JoinWith(ls, "\n") + "\n" + y) == ls + SplitLines(y)
  {
    DropCrClean(ls[0]);
    LinesOfLine(ls[0], y);
  }

  lemma CleanTail(ls: seq<string>)
    requires |ls| > 0
    requires forall i :: 0 <= i < |ls| ==> CleanLine(ls[i])
    ensures forall i :: 0 <= i < |ls[1..]| ==> CleanLine(ls[1..][i])
  {
    forall i | 0 <= i < |ls[1..]| ensures CleanLine(ls[1..][i]) {
      assert ls[1..][i] == ls[i + 1];
    }
  }

  lemma ConsAppend(ls: seq<string>, t: seq<string>)
    requires |ls| > 0
    ensures [ls[0]] + ls[1..] == ls
    ensures [ls[0]] + (ls[1..] + t) == ls + t
  {
    assert [ls[0]] + ls[1..] == ls;
  }

  /** Splitting into lines and joining them again loses only a final newline. */
  lemma {:induction false} JoinOfLines(s: string)
    requires '\r' !in s
    ensures JoinWith(SplitLines(s), "\n") == Chomp(s)
    decreases |s|
  {
    if s != [] {
      var i := IndexOfNewline(s);
      if i < |s| {
        var line := s[..i];
        var rest := s[i + 1..];
        assert s == line + "\n" + rest;
        NoCrInParts(s, i);
        assert SplitLines(s) == [line] + SplitLines(rest) by {
          LinesOfLine(line, rest);
          DropCrClean(line);
        }
        if rest != [] {
          assert JoinWith(SplitLines(rest), "\n") == Chomp(rest) by {
            JoinOfLines(rest);
          }
          assert JoinWith(SplitLines(s), "\n") == line + "\n" + Chomp(rest) by {
            JoinWithCons(line, SplitLines(rest), "\n");
          }
          assert Chomp(s) == line + "\n" + Chomp(rest) by {
            ChompAfter(line + "\n", rest);
          }
        } else {
          assert Chomp(s) == line;
        }
      }
    }
  }

  lemma NoCrInParts(s: string, i: nat)
    requires '\r' !in s && i < |s|
    ensures '\r' !in s[..i] && '\r' !in s[i + 1..]
  {
    var line, rest := s[..i], s[i + 1..];
    assert forall j :: 0 <= j < |line| ==> line[j] == s[j];
    assert forall j :: 0 <= j < |rest| ==> rest[j] == s[i + 1 + j];
  }

  /** Chomping only touches the end of a non-empty tail. */
  lemma ChompAfter(x: string, y: string)
    requires y != []
    ensures Chomp(x + y) == x + Chomp(y)
  {
    var s := x + y;
    assert s[|s| - 1] == y[|y| - 1];
    if y[|y| - 1] == '\n' {
      assert s[..|s| - 1] == x + y[..|y| - 1];
    }
  }

  // ---------------------------------------------------------------------------
  // What the reader takes from a sequence of lines

  /** The lines before the first delimiter line. */
  function UntilDelimiter(ls: seq<string>): (r: seq<string>)
    ensures r <= ls
    ensures Delimiter !in r
    ensures |r| == |ls| || ls[|r|] == Delimiter
  {
    if ls == [] || ls[0] == Delimiter then [] else [ls[0]] + UntilDelimiter(ls[1..])
  }

  /** The three properties of `UntilDelimiter` determine it. */
  lemma {:induction false} UntilDelimiterUnique(ls: seq<string>, r: seq<string>)
    requires r <= ls && Delimiter !in r
    requires |r| == |ls| || ls[|r|] == Delimiter
    ensures UntilDelimiter(ls) == r
  {
    if ls != [] && ls[0] != Delimiter {
      assert r != [] && r[0] == ls[0];
      UntilDelimiterUnique(ls[1..], r[1..]);
    }
  }

  /** The lines of the frontmatter block, if the first line opens one. */
  function FmLines(ls: seq<string>): (r: Option<seq<string>>)
    ensures r.None? <==> |ls| == 0 || ls[0] != Delimiter
    ensures r.Some? ==> Delimiter !in r.value
  {
    if |ls| > 0 && ls[0] == Delimiter then Some(UntilDelimiter(ls[1..])) else None
  }

  /** The number of lines the frontmatter reader consumes: the opener, the block and
      the closing delimiter when there is one. */
  function FmLineCount(ls: seq<string>): (n: nat)
    ensures n <= |ls|
  {
    match FmLines(ls)
    case None => 0
    case Some(inner) => if 1 + |inner| < |ls| then |inner| + 2 else |inner| + 1
  }

  /** The captured frontmatter text: the block's lines joined with newlines. */
  function FmText(ls: seq<string>): (r: Option<string>)
    ensures r.None? <==> |ls| == 0 || ls[0] != Delimiter
  {
    match FmLines(ls)
    case None => None
    case Some(inner) => Some(JoinWith(inner, "\n"))
  }

  /** The body: every line after the frontmatter, joined with newlines. */
  function BodyText(ls: seq<string>): (r: string)
    ensures |ls| == 0 || ls[0] != Delimiter ==> r == JoinWith(ls, "\n")
  {
    JoinWith(ls[FmLineCount(ls)..], "\n")
  }

  /** `consume_fm`: no block gives an empty mapping, a block is parsed. */
  function ParseFm(text: Option<string>, parse: string -> Option<Mapping>): Result<Mapping, FmError>
  {
    match text
    case None => Ok(map[])
    case Some(t) => if parse(t).Some? then Ok(parse(t).value) else Err(ParseError)
  }

  /** What `read_fm_and_body` returns for a file with these lines. */
  function ReadDoc(ls: seq<string>, parse: string -> Option<Mapping>): (r: Result<Doc, FmError>)
    ensures r.Err? <==> FmText(ls).Some? && parse(FmText(ls).value).None?
    ensures FmText(ls).None? ==> r == Ok(Doc(map[], JoinWith(ls, "\n")))
    ensures r.Ok? ==> r.value.body == BodyText(ls)
  {
    var m :- ParseFm(FmText(ls), parse);
    Ok(Doc(m, BodyText(ls)))
  }

  /** A file whose first line is not `---` has no frontmatter: nothing is consumed,
      the mapping is empty and the body is the whole file. */
  lemma NoFrontmatter(ls: seq<string>, parse: string -> Option<Mapping>)
    requires |ls| == 0 || ls[0] != Delimiter
    ensures FmText(ls) == None && FmLineCount(ls) == 0
    ensures ReadDoc(ls, parse) == Ok(Doc(map[], JoinWith(ls, "\n")))
  {
    assert ls[0..] == ls;
  }

  /** With a closing delimiter at line k the block is the lines strictly between the
      two delimiters; the closing one is consumed and the body is what follows it. */
  lemma ClosedFrontmatter(ls: seq<string>, k: nat)
    requires 1 <= k < |ls| && ls[0] == Delimiter && ls[k] == Delimiter
    requires Delimiter !in ls[1..k]
    ensures FmLines(ls) == Some(ls[1..k])
    ensures FmText(ls) == Some(JoinWith(ls[1..k], "\n"))
    ensures FmLineCount(ls) == k + 1
    ensures BodyText(ls) == JoinWith(ls[k + 1..], "\n")
  {
    UntilDelimiterUnique(ls[1..], ls[1..k]);
  }

  /** Without a closing delimiter every line after the opener is frontmatter text and
      the body is empty. */
  lemma UnclosedFrontmatter(ls: seq<string>)
    requires |ls| >= 1 && ls[0] == Delimiter
    requires Delimiter !in ls[1..]
    ensures FmText(ls) == Some(JoinWith(ls[1..], "\n"))
    ensures FmLineCount(ls) == |ls|
    ensures BodyText(ls) == ""
  {
    UntilDelimiterUnique(ls[1..], ls[1..]);
  }

  // ---------------------------------------------------------------------------
  // The reader: one cursor over the lines, advanced step by step

  class LineReader {
    const lines: seq<string>
    var pos: nat

    ghost predicate Valid()
      reads this
    {
      pos <= |lines|
    }

    /** The lines not yet consumed. */
    ghost function Remaining(): seq<string>
      reads this
      requires Valid()
    {
      lines[pos..]
    }

    constructor (ls: seq<string>)
      ensures Valid() && lines == ls && pos == 0
    {
      lines := ls;
      pos := 0;
    }

    /** `next_if(|first| first == "---")`: consume the next line only if it opens a block. */
    method NextIfDelimiter() returns (taken: bool)
      requires Valid()
      modifies this
      ensures Valid()
      ensures taken <==> old(pos) < |lines| && lines[old(pos)] == Delimiter
      ensures pos == if taken then old(pos) + 1 else old(pos)
    {
      taken := pos < |lines| && lines[pos] == Delimiter;
      if taken {
        pos := pos + 1;
      }
    }

    /** `map_while(line != "---")`: collect lines until a delimiter, which is consumed
        too, or until the lines run out. */
    method TakeUntilDelimiter() returns (taken: seq<string>)
      requires Valid()
      modifies this
      ensures Valid()
      ensures taken == UntilDelimiter(old(Remaining()))
      ensures pos == if old(pos) + |taken| < |lines| then old(pos) + |taken| + 1 else |lines|
    {
      ghost var start := pos;
      taken := [];
      var done := false;
      while !done
        invariant start <= pos <= |lines|
        invariant Delimiter !in taken
        invariant !done ==> taken == lines[start..pos]
        invariant done ==> (pos == |lines| && taken == lines[start..pos]) ||
                           (start < pos && taken == lines[start..pos - 1] && lines[pos - 1] == Delimiter)
        decreases |lines| - pos, if done then 0 else 1
      {
        if pos == |lines| {
          done := true;
        } else {
          var line := lines[pos];
          pos := pos + 1;
          if line == Delimiter {
            done := true;
          } else {
            taken := taken + [line];
          }
        }
      }
      UntilDelimiterUnique(lines[start..], taken);
    }

    /** `consume_fm_text`: the text of the block, or None when the first line does not
        open one. */
    method ConsumeFmText() returns (text: Option<string>)
      requires Valid()
      modifies this
      ensures Valid()
      ensures text == FmText(old(Remaining()))
      ensures pos == old(pos) + FmLineCount(old(Remaining()))
    {
      ghost var rest := lines[pos..];
      var isOpen := NextIfDelimiter();
      if isOpen {
        assert lines[pos..] == rest[1..];
        var inner := TakeUntilDelimiter();
        text := Some(JoinWith(inner, "\n"));
      } else {
        text := None;
      }
    }

    /** `consume_rest_text`: every remaining line, joined with newlines. */
    method ConsumeRestText() returns (text: string)
      requires Valid()
      modifies this
      ensures Valid() && pos == |lines|
      ensures text == JoinWith(old(Remaining()), "\n")
    {
      ghost var all := lines[pos..];
      var rest: seq<string> := [];
      while pos < |lines|
        invariant pos <= |lines|
        invariant rest + lines[pos..] == all
      {
        rest := rest + [lines[pos]];
        pos := pos + 1;
      }
      assert rest == all;
      text := JoinWith(rest, "\n");
    }
  }

  /** `consume_fm`. */
  method ConsumeFm(reader: LineReader, parse: string -> Option<Mapping>) returns (r: Result<Mapping, FmError>)
    requires reader.Valid()
    modifies reader
    ensures reader.Valid()
    ensures r == ParseFm(FmText(old(reader.Remaining())), parse)
    ensures reader.pos == old(reader.pos) + FmLineCount(old(reader.Remaining()))
  {
    var text := reader.ConsumeFmText();
    match text
    case None =>
      r := Ok(map[]);
    case Some(t) =>
      var parsed := parse(t);
      if parsed.Some? {
        r := Ok(parsed.value);
      } else {
        r := Err(ParseError);
      }
  }

  /** `read_fm`: the file's metadata. */
  method ReadFm(ls: seq<string>, parse: string -> Option<Mapping>) returns (r: Result<Mapping, FmError>)
    ensures r == ParseFm(FmText(ls), parse)
    ensures (|ls| == 0 || ls[0] != Delimiter) ==> r == Ok(map[])
  {
    var reader := new LineReader(ls);
    assert reader.Remaining() == ls;
    r := ConsumeFm(reader, parse);
  }

  /** `read_body`: the frontmatter text is consumed and dropped, the rest is the body. */
  method ReadBody(ls: seq<string>) returns (body: string)
    ensures body == BodyText(ls)
    ensures (|ls| == 0 || ls[0] != Delimiter) ==> body == JoinWith(ls, "\n")
  {
    var reader := new LineReader(ls);
    assert reader.Remaining() == ls;
    var _ := reader.ConsumeFmText();
    body := reader.ConsumeRestText();
    assert ls[0..] == ls;
  }

  /** `read_fm_and_body`: one pass giving the same mapping as `read_fm` and the same
      body as `read_body`; a parse error stops it before the body is read. */
  method ReadFmAndBody(ls: seq<string>, parse: string -> Option<Mapping>) returns (r: Result<Doc, FmError>)
    ensures r.Err? <==> ParseFm(FmText(ls), parse).Err?
    ensures r.Ok? ==> r.value.fm == ParseFm(FmText(ls), parse).value && r.value.body == BodyText(ls)
    ensures r == ReadDoc(ls, parse)
  {
    var reader := new LineReader(ls);
    assert reader.Remaining() == ls;
    var fm := ConsumeFm(reader, parse);
    if fm.Err? {
      return Err(fm.error);
    }
    var body := reader.ConsumeRestText();
    r := Ok(Doc(fm.value, body));
  }

  // ---------------------------------------------------------------------------
  // Writing

  /** `write_fm_and_body`: the serialised mapping, a closing delimiter, a blank line
      and the body. */
  function WriteFmAndBody(serialized: string, body: string): string
  {
    serialized + "---\n\n" + body
  }

  /** `write_body`: the body alone. */
  function WriteBody(body: string): string
  {
    body
  }

  /** The shape of the serialiser's output for a mapping: a `---` line, then lines none
      of which is a delimiter, each ended by a newline. */
  predicate SerializedAs(serialized: string, yamlLines: seq<string>)
  {
    && serialized == JoinWith([Delimiter] + yamlLines, "\n") + "\n"
    && forall i :: 0 <= i < |yamlLines| ==> CleanLine(yamlLines[i]) && yamlLines[i] != Delimiter
  }

  lemma LinesAfterDelimiter(t: string)
    ensures SplitLines("---\n" + t) == [Delimiter] + SplitLines(t)
  {
    DropCrClean(Delimiter);
    assert "---\n" + t == Delimiter + "\n" + t;
    LinesOfLine(Delimiter, t);
  }

  lemma LinesAfterBlank(t: string)
    ensures SplitLines("\n" + t) == [""] + SplitLines(t)
  {
    assert "\n" + t == "" + "\n" + t;
    LinesOfLine("", t);
  }

  /** The closing delimiter and the blank line the writer puts before the body. */
  lemma LinesAfterBlock(body: string)
    ensures SplitLines("---\n\n" + body) == [Delimiter, ""] + SplitLines(body)
  {
    assert "---\n\n" + body == "---\n" + ("\n" + body);
    LinesAfterDelimiter("\n" + body);
    LinesAfterBlank(body);
  }

  lemma SerializedLinesClean(yamlLines: seq<string>)
    requires forall i :: 0 <= i < |yamlLines| ==> CleanLine(yamlLines[i])
    ensures forall i :: 0 <= i < |[Delimiter] + yamlLines| ==> CleanLine(([Delimiter] + yamlLines)[i])
  {
    var head := [Delimiter] + yamlLines;
    forall i | 0 <= i < |head|
      ensures CleanLine(head[i])
    {
      if i > 0 {
        assert head[i] == yamlLines[i - 1];
      }
    }
  }

  /** The lines of a written file: the serialised block, the closing delimiter, the
      blank line and the body's lines. */
  lemma {:induction false} WrittenLines(serialized: string, yamlLines: seq<string>, body: string)
    requires SerializedAs(serialized, yamlLines)
    ensures SplitLines(WriteFmAndBody(serialized, body)) ==
            [Delimiter] + yamlLines + [Delimiter, ""] + SplitLines(body)
  {
    var head := [Delimiter] + yamlLines;
    var rest := "---\n\n" + body;
    SerializedLinesClean(yamlLines);
    assert WriteFmAndBody(serialized, body) == JoinWith(head, "\n") + "\n" + rest;
    LinesOfJoin(head, rest);
    LinesAfterBlock(body);
  }

  /** How the reader splits a written file: the block is the serialised lines, the
      reader consumes them and both delimiters, and the blank line starts the rest. */
  lemma {:induction false} WrittenFileLayout(serialized: string, yamlLines: seq<string>, body: string)
    requires SerializedAs(serialized, yamlLines)
    ensures var ls := SplitLines(WriteFmAndBody(serialized, body));
            && FmLines(ls) == Some(yamlLines)
            && FmText(ls) == Some(JoinWith(yamlLines, "\n"))
            && FmLineCount(ls) == |yamlLines| + 2 < |ls|
            && ls[|yamlLines| + 2..] == [""] + SplitLines(body)
  {
    var ls := SplitLines(WriteFmAndBody(serialized, body));
    WrittenLines(serialized, yamlLines, body);
    var k := |yamlLines| + 1;
    assert ls[k] == Delimiter;
    assert ls[1..k] == yamlLines;
    assert Delimiter !in yamlLines by {
      assert forall i :: 0 <= i < |yamlLines| ==> yamlLines[i] != Delimiter;
    }
    ClosedFrontmatter(ls, k);
    assert ls[k + 1..] == [""] + SplitLines(body);
  }

  /** Reading back a written file gives the mapping the serialiser encoded, and the
      body with the writer's blank line still in front of it (and without a final
      newline, which line splitting drops). */
  lemma {:induction false} WrittenFileReadBack(
    serialized: string, yamlLines: seq<string>, body: string,
    parse: string -> Option<Mapping>, m: Mapping)
    requires SerializedAs(serialized, yamlLines)
    requires '\r' !in body
    requires parse(JoinWith(yamlLines, "\n")) == Some(m)
    ensures ReadDoc(SplitLines(WriteFmAndBody(serialized, body)), parse) ==
            Ok(Doc(m, if body == "" then "" else "\n" + Chomp(body)))
  {
    RereadBodyShape(body);
    RereadAfterWrite(serialized, yamlLines, body, parse, m);
  }

  /** The body `read_fm_and_body` gives back for a file `write_fm_and_body` wrote: an
      empty line (the writer's blank line), then the body's lines, joined by newlines. */
  function RereadBody(body: string): string
  {
    JoinWith([""] + SplitLines(body), "\n")
  }

  /** An empty body stays empty, and a body without carriage returns comes back as a
      newline followed by the body less one final newline. */
  lemma RereadBodyShape(body: string)
    ensures body == "" ==> RereadBody(body) == ""
    ensures body != "" && '\r' !in body ==> RereadBody(body) == "\n" + Chomp(body)
  {
    JoinWithCons("", SplitLines(body), "\n");
    if body != "" && '\r' !in body {
      JoinOfLines(body);
    }
  }

  /** Each rewrite of a body that does not end with a newline puts one more blank line
      in front of it. */
  lemma RereadAddsBlankLine(body: string)
    requires body != "" && '\r' !in body && body[|body| - 1] != '\n'
    ensures RereadBody(body) == "\n" + body
    ensures RereadBody("\n" + body) == "\n\n" + body
  {
    var once := "\n" + body;
    RereadOnce(body);
    NewlineInFront(body);
    RereadOnce(once);
    assert "\n" + once == "\n\n" + body;
  }

  /** One rewrite of a body that does not end with a newline puts a newline in front. */
  lemma RereadOnce(body: string)
    requires body != "" && '\r' !in body && body[|body| - 1] != '\n'
    ensures RereadBody(body) == "\n" + body
  {
    assert Chomp(body) == body;
    RereadBodyShape(body);
  }

  /** A newline put in front of a body that does not end with one adds no carriage
      return and no final newline. */
  lemma NewlineInFront(body: string)
    requires body != "" && '\r' !in body && body[|body| - 1] != '\n'
    ensures '\r' !in "\n" + body && ("\n" + body)[|"\n" + body| - 1] != '\n'
  {
    var once := "\n" + body;
    assert '\r' !in once by {
      assert forall i :: 0 < i < |once| ==> once[i] == body[i - 1];
    }
    assert once[|once| - 1] == body[|body| - 1];
  }

  /** Whatever the body, reading back a written file gives the mapping the serialiser
      encoded and `RereadBody` of the body. */
  lemma {:induction false} RereadAfterWrite(
    serialized: string, yamlLines: seq<string>, body: string,
    parse: string -> Option<Mapping>, m: Mapping)
    requires SerializedAs(serialized, yamlLines)
    requires parse(JoinWith(yamlLines, "\n")) == Some(m)
    ensures ReadDoc(SplitLines(WriteFmAndBody(serialized, body)), parse) == Ok(Doc(m, RereadBody(body)))
  {
    var ls := SplitLines(WriteFmAndBody(serialized, body));
    WrittenFileLayout(serialized, yamlLines, body);
    assert ParseFm(FmText(ls), parse) == Ok(m);
  }

  /** The blank line the writer puts after the closing delimiter comes back as part of
      the body: a card whose body is "Q" is read back with body "\nQ", and every
      rewrite adds one more leading newline. */
  lemma BlankLineComesBack(serialized: string, yamlLines: seq<string>, body: string,
                           parse: string -> Option<Mapping>, m: Mapping)
    requires SerializedAs(serialized, yamlLines)
    requires '\r' !in body && body != "" && body[|body| - 1] != '\n'
    requires parse(JoinWith(yamlLines, "\n")) == Some(m)
    ensures ReadDoc(SplitLines(WriteFmAndBody(serialized, body)), parse) == Ok(Doc(m, "\n" + body))
    ensures ReadDoc(SplitLines(WriteFmAndBody(serialized, body)), parse) != Ok(Doc(m, body))
  {
    WrittenFileReadBack(serialized, yamlLines, body, parse, m);
    assert |"\n" + body| != |body|;
  }

  /** The body reader with the blank line after a closing delimiter removed, as the
      writer's format intends. */
  function StrippedBodyText(ls: seq<string>): string
  {
    var rest := ls[FmLineCount(ls)..];
    var closed := FmLines(ls).Some? && 1 + |FmLines(ls).value| < |ls|;
    if closed && |rest| > 0 && rest[0] == "" then JoinWith(rest[1..], "\n") else JoinWith(rest, "\n")
  }

  function ReadDocStripped(ls: seq<string>, parse: string -> Option<Mapping>): Result<Doc, FmError>
  {
    var m :- ParseFm(FmText(ls), parse);
    Ok(Doc(m, StrippedBodyText(ls)))
  }

  /** With the blank line stripped, writing then reading gives back the mapping and the
      body exactly (for a body that does not end with a newline). */
  lemma {:induction false} StrippedRoundTrip(
    serialized: string, yamlLines: seq<string>, body: string,
    parse: string -> Option<Mapping>, m: Mapping)
    requires SerializedAs(serialized, yamlLines)
    requires '\r' !in body && (body == "" || body[|body| - 1] != '\n')
    requires parse(JoinWith(yamlLines, "\n")) == Some(m)
    ensures ReadDocStripped(SplitLines(WriteFmAndBody(serialized, body)), parse) == Ok(Doc(m, body))
  {
    var ls := SplitLines(WriteFmAndBody(serialized, body));
    WrittenFileLayout(serialized, yamlLines, body);
    assert ls[FmLineCount(ls)..][1..] == SplitLines(body);
    JoinOfLines(body);
  }

  /** A file written as body only reads back with an empty mapping and the same body,
      as long as the body does not itself start with a `---` line. */
  lemma BodyOnlyReadBack(body: string, parse: string -> Option<Mapping>)
    requires '\r' !in body
    requires body == "" || SplitLines(body)[0] != Delimiter
    ensures ReadDoc(SplitLines(WriteBody(body)), parse) == Ok(Doc(map[], Chomp(body)))
  {
    NoFrontmatter(SplitLines(body), parse);
    JoinOfLines(body);
  }
}
