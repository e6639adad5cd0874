/** The streaming indenter of the schema printer: `PadAdapter` in diesel_cli/src/print_schema.rs. */
module Indentation {
  import opened Prelude

  const PAD := "    "

  /** The character-wise meaning of the adapter: `pad` goes in front of every character that
      starts a non-empty line, except on the first line unless `onNewline` says so. */
  function Indented(pad: string, s: string, onNewline: bool): string {
    if s == "" then "" else Lead(pad, s[0], onNewline) + Indented(pad, s[1..], s[0] == '\n')
  }

  function Lead(pad: string, c: char, onNewline: bool): string {
    if onNewline && c != '\n' then pad + [c] else [c]
  }

  /** Whether the text written so far ends in a newline. */
  function EndsLine(s: string, onNewline: bool): bool {
    if s == "" then onNewline else s[|s| - 1] == '\n'
  }

  function Find(s: string, c: char): (pos: Option<nat>)
    ensures pos.Some? ==> pos.value < |s| && s[pos.value] == c && c !in s[..pos.value]
    ensures pos.None? ==> c !in s
  {
    if s == "" then None
    else if s[0] == c then Some(0)
    else
      var rest := Find(s[1..], c);
      assert rest.Some? ==> s[..rest.value + 1] == [s[0]] + s[1..][..rest.value];
      if rest.Some? then Some(rest.value + 1) else None
  }

  class PadAdapter {
    var fmt: string
    var onNewline: bool

    constructor (out: string)
      ensures fmt == out && !onNewline
    {
      fmt := out;
      onNewline := false;
    }

    /** `write_str`: one line at a time, padding each chunk that starts on a fresh non-empty line. */
    method WriteStr(text: string)
      modifies this
      ensures fmt == old(fmt) + Indented(PAD, text, old(onNewline))
      ensures onNewline == EndsLine(text, old(onNewline))
    {
      var s := text;
      ghost var done := "";
      while s != ""
        invariant text == done + s
        invariant fmt == old(fmt) + Indented(PAD, done, old(onNewline))
        invariant onNewline == EndsLine(done, old(onNewline))
        decreases |s|
      {
        var wasOnNewline := onNewline;
        var split;
        match Find(s, '\n') {
          case Some(pos) =>
            onNewline := true;
            split := pos + 1;
          case None =>
            onNewline := false;
            split := |s|;
        }
        var toWrite := s[..split];
        if wasOnNewline && toWrite != "\n" {
          ConcatAssociative(fmt, PAD, toWrite);
          fmt := fmt + PAD;
        }
        fmt := fmt + toWrite;
        WriteChunk(text, done, s, split, old(onNewline));
        ConcatAssociative(old(fmt), Indented(PAD, done, old(onNewline)), if wasOnNewline && toWrite != "\n" then PAD + toWrite else toWrite);
        done := done + toWrite;
        s := s[split..];
      }
      assert done == text;
    }
  }

  lemma {:induction false} IndentedAppend(pad: string, a: string, b: string, onNewline: bool)
    ensures Indented(pad, a + b, onNewline) == Indented(pad, a, onNewline) + Indented(pad, b, EndsLine(a, onNewline))
    ensures EndsLine(a + b, onNewline) == EndsLine(b, EndsLine(a, onNewline))
  {
    if a == "" {
      assert a + b == b;
    } else {
      var nl := a[0] == '\n';
      IndentedAppend(pad, a[1..], b, nl);
      assert (a + b)[1..] == a[1..] + b;
      assert EndsLine(a, onNewline) == EndsLine(a[1..], nl);
      ConcatAssociative(Lead(pad, a[0], onNewline), Indented(pad, a[1..], nl), Indented(pad, b, EndsLine(a, onNewline)));
    }
  }

  lemma ConcatAssociative(a: string, b: string, c: string)
    ensures a + (b + c) == (a + b) + c
  {
  }

  /** A chunk whose only newline, if any, is its last character. */
  lemma IndentedChunk(pad: string, chunk: string, onNewline: bool)
    requires chunk != "" && '\n' !in chunk[..|chunk| - 1]
    ensures Indented(pad, chunk, onNewline) == if onNewline && chunk != "\n" then pad + chunk else chunk
  {
  }

  lemma WriteChunk(text: string, done: string, s: string, split: nat, start: bool)
    requires text == done + s && 0 < split <= |s| && '\n' !in s[..split - 1]
    ensures text == (done + s[..split]) + s[split..]
    ensures Indented(PAD, done + s[..split], start)
         == Indented(PAD, done, start) + (if EndsLine(done, start) && s[..split] != "\n" then PAD + s[..split] else s[..split])
    ensures EndsLine(done + s[..split], start) == (s[split - 1] == '\n')
  {
    hide Indented;
    var chunk := s[..split];
    assert chunk[..|chunk| - 1] == s[..split - 1];
    IndentedChunk(PAD, chunk, EndsLine(done, start));
    IndentedAppend(PAD, done, chunk, start);
  }

  // ----- chunking

  function Concat(chunks: seq<string>): string {
    if chunks == [] then "" else chunks[0] + Concat(chunks[1..])
  }

  /** The text that a sequence of `write_str` calls produces, each from the state the last one left. */
  function WriteAll(pad: string, chunks: seq<string>, onNewline: bool): string {
    if chunks == [] then ""
    else Indented(pad, chunks[0], onNewline) + WriteAll(pad, chunks[1..], EndsLine(chunks[0], onNewline))
  }

  function StateAfter(chunks: seq<string>, onNewline: bool): bool {
    if chunks == [] then onNewline else StateAfter(chunks[1..], EndsLine(chunks[0], onNewline))
  }

  /** How a text is cut into `write_str` calls is not visible in the output nor in the state. */
  lemma {:induction false} ChunkingInvisible(pad: string, chunks: seq<string>, onNewline: bool)
    ensures WriteAll(pad, chunks, onNewline) == Indented(pad, Concat(chunks), onNewline)
    ensures StateAfter(chunks, onNewline) == EndsLine(Concat(chunks), onNewline)
  {
    if chunks != [] {
      ChunkingInvisible(pad, chunks[1..], EndsLine(chunks[0], onNewline));
      IndentedAppend(pad, chunks[0], Concat(chunks[1..]), onNewline);
    }
  }

  // ----- the line-wise reading

  /** The text cut at its newlines; a text with `n` newlines has `n + 1` lines. */
  function Lines(s: string): (lines: seq<string>)
    ensures lines != []
  {
    if s == "" then [""]
    else if s[0] == '\n' then [""] + Lines(s[1..])
    else var rest := Lines(s[1..]); [[s[0]] + rest[0]] + rest[1..]
  }

  function Unlines(lines: seq<string>): string
    requires lines != []
  {
    if |lines| == 1 then lines[0] else lines[0] + "\n" + Unlines(lines[1..])
  }

  function PadLine(pad: string, line: string): string {
    if line == "" then "" else pad + line
  }

  function PadLines(pad: string, lines: seq<string>): (r: seq<string>)
    ensures |r| == |lines|
  {
    if lines == [] then [] else [PadLine(pad, lines[0])] + PadLines(pad, lines[1..])
  }

  /** The lines of the indented text: the first one is padded only at a line start, the others unless empty. */
  function IndentedLines(pad: string, lines: seq<string>, onNewline: bool): (r: seq<string>)
    requires lines != []
    ensures r != []
  {
    [if onNewline then PadLine(pad, lines[0]) else lines[0]] + PadLines(pad, lines[1..])
  }

  /** Line by line: the first line is padded only when the adapter is at a line start, every
      later line is padded unless it is empty. */
  lemma {:induction false} IndentsEachLine(pad: string, s: string, onNewline: bool)
    ensures Indented(pad, s, onNewline) == Unlines(IndentedLines(pad, Lines(s), onNewline))
  {
    if s == "" {
    } else {
      IndentsEachLine(pad, s[1..], s[0] == '\n');
      if s[0] == '\n' {
        NewLine(pad, Lines(s[1..]), onNewline);
      } else {
        LongerLine(pad, s[0], Lines(s[1..]), onNewline);
      }
    }
  }

  lemma NewLine(pad: string, rest: seq<string>, onNewline: bool)
    requires rest != []
    ensures Unlines(IndentedLines(pad, [""] + rest, onNewline)) == "\n" + Unlines(IndentedLines(pad, rest, true))
  {
    assert ([""] + rest)[1..] == rest;
    assert PadLines(pad, rest) == IndentedLines(pad, rest, true);
    assert ([""] + PadLines(pad, rest))[1..] == PadLines(pad, rest);
  }

  lemma LongerLine(pad: string, c: char, rest: seq<string>, onNewline: bool)
    requires rest != [] && c != '\n'
    ensures Unlines(IndentedLines(pad, [[c] + rest[0]] + rest[1..], onNewline))
         == Lead(pad, c, onNewline) + Unlines(IndentedLines(pad, rest, false))
  {
    assert ([[c] + rest[0]] + rest[1..])[1..] == rest[1..];
    UnlinesPrefix(Lead(pad, c, onNewline), rest[0], PadLines(pad, rest[1..]));
    assert onNewline ==> pad + ([c] + rest[0]) == (pad + [c]) + rest[0];
  }

  lemma UnlinesPrefix(prefix: string, first: string, rest: seq<string>)
    ensures Unlines([prefix + first] + rest) == prefix + Unlines([first] + rest)
  {
  }

  // ----- inverse

  /** Removes `pad` after each newline that it follows. */
  function Unindented(pad: string, s: string, onNewline: bool): string
    decreases |s|, onNewline
  {
    if onNewline && pad <= s then Unindented(pad, s[|pad|..], false)
    else if s == "" then ""
    else [s[0]] + Unindented(pad, s[1..], s[0] == '\n')
  }

  /** Removing the padding gives back every text. */
  lemma {:induction false} UnindentRecovers(s: string, onNewline: bool)
    ensures Unindented(PAD, Indented(PAD, s, onNewline), onNewline) == s
  {
    if s == "" {
    } else {
      var tail := Indented(PAD, s[1..], s[0] == '\n');
      UnindentRecovers(s[1..], s[0] == '\n');
      UnindentLead(s[0], tail, onNewline);
      assert s == [s[0]] + s[1..];
    }
  }

  lemma UnindentLead(c: char, tail: string, onNewline: bool)
    ensures Unindented(PAD, Lead(PAD, c, onNewline) + tail, onNewline) == [c] + Unindented(PAD, tail, c == '\n')
  {
  }

  // ----- nesting

  lemma IndentedHead(pad: string, head: string, s: string)
    requires '\n' !in head && head != ""
    ensures Indented(pad, head + s, true) == pad + head + Indented(pad, s, false)
    ensures Indented(pad, head + s, false) == head + Indented(pad, s, false)
  {
    IndentedAppend(pad, head, s, true);
    IndentedAppend(pad, head, s, false);
    assert head[|head| - 1] in head;
    assert '\n' !in head[..|head| - 1];
    IndentedChunk(pad, head, true);
    IndentedChunk(pad, head, false);
    assert head[0] in head;
  }

  /** An adapter writing through an adapter in the same state pads once by both pads, and still
      leaves blank lines blank. */
  lemma {:induction false} NestedAdapters(outer: string, inner: string, s: string, onNewline: bool)
    requires '\n' !in inner
    ensures Indented(outer, Indented(inner, s, onNewline), onNewline) == Indented(outer + inner, s, onNewline)
  {
    if s == "" {
    } else {
      var c, rest := [s[0]], Indented(inner, s[1..], s[0] == '\n');
      NestedAdapters(outer, inner, s[1..], s[0] == '\n');
      if s[0] == '\n' {
        assert Indented(inner, s, onNewline) == c + rest;
        assert (c + rest)[1..] == rest;
      } else {
        var head := (if onNewline then inner else "") + c;
        assert Indented(inner, s, onNewline) == head + rest;
        IndentedHead(outer, head, rest);
      }
    }
  }

  /** A fresh inner adapter (never at a line start) inside an outer one that is at a line start. */
  lemma NestedFreshAdapter(outer: string, inner: string, s: string)
    requires '\n' !in inner
    ensures Indented(outer, Indented(inner, s, false), true)
         == (if s != "" && s[0] != '\n' then outer else "") + Indented(outer + inner, s, false)
  {
    NestedAdapters(outer, inner, s, false);
    var t := Indented(inner, s, false);
    if s != "" {
      assert t[0] == s[0];
    }
  }

  /** Two lines, a blank one and another: four spaces in front of each but the first and the blank one. */
  lemma IndentedInFull()
    ensures Indented(PAD, "a\nb\n\nc", false) == "a\n    b\n\n    c"
  {
    hide Indented;
    IndentedAppend(PAD, "a\n", "b\n\nc", false);
    IndentedAppend(PAD, "b\n", "\nc", true);
    IndentedAppend(PAD, "\n", "c", true);
    IndentedChunk(PAD, "a\n", false);
    IndentedChunk(PAD, "b\n", true);
    IndentedChunk(PAD, "\n", true);
    IndentedChunk(PAD, "c", true);
    assert "a\n" + "b\n\nc" == "a\nb\n\nc" && "b\n" + "\nc" == "b\n\nc" && "\n" + "c" == "\nc";
    assert "a\n" + ("    " + "b\n" + ("\n" + ("    " + "c"))) == "a\n    b\n\n    c";
  }
}
