/**
 * `writeStringToLine`: the GPS handler keeps its position text on one numbered line
 * of a text file. The file is read line by line with `getline`, the line is set
 * (padding with empty lines when the file is too short), and the whole file is
 * written back, every line followed by a newline. When the line already holds the
 * text, the file is left alone.
 *
 * A file is its text, `None` when it cannot be opened for reading. Whether opening
 * it for writing succeeds is a parameter.
 */
module LineFile {
  import opened Wire

  /** Where the first line of `text` ends: the first newline, or the end of the text. */
  function LineEnd(text: string): (k: nat)
    ensures k <= |text|
    ensures forall i :: 0 <= i < k ==> text[i] != '\n'
    ensures k < |text| ==> text[k] == '\n'
    decreases |text|
  {
    if text == [] || text[0] == '\n' then 0 else 1 + LineEnd(text[1..])
  }

  /**
   * The lines `getline` extracts, in order: each ends at a newline, which is
   * dropped, and text after the last newline is one more line.
   */
  function ReadLines(text: string): (r: seq<string>)
    ensures forall i :: 0 <= i < |r| ==> '\n' !in r[i]
    decreases |text|
  {
    if text == [] then []
    else
      var k := LineEnd(text);
      [text[..k]] + (if k < |text| then ReadLines(text[k + 1..]) else [])
  }

  /** The text written for `lines`: each line followed by a newline (`std::endl`). */
  function Render(lines: seq<string>): string
    decreases |lines|
  {
    if lines == [] then "" else lines[0] + "\n" + Render(lines[1..])
  }

  predicate NoNewline(lines: seq<string>)
  {
    forall i :: 0 <= i < |lines| ==> '\n' !in lines[i]
  }

  /** `n` empty lines. */
  function Blanks(n: nat): (r: seq<string>)
    ensures |r| == n && forall i :: 0 <= i < n ==> r[i] == ""
  {
    if n == 0 then [] else Blanks(n - 1) + [""]
  }

  /** What `writeStringToLine` decides to do with a file. */
  datatype LineWrite =
    | Unreadable           // the file cannot be opened for reading
    | AlreadyThere         // the line already holds the text
    | Rewrite(lines: seq<string>)  // the lines the file is rewritten with

  /**
   * The decision for setting line `lineNumber` of the file `content` to `s`. A
   * negative line number replaces the whole file by the one line `s`, without
   * reading it.
   */
  function Updated(content: Option<string>, lineNumber: int, s: string): LineWrite
  {
    if lineNumber < 0 then Rewrite([s])
    else
      match content
      case None => Unreadable
      case Some(text) =>
        var ls := ReadLines(text);
        if lineNumber >= |ls| then Rewrite(ls + Blanks(lineNumber - |ls|) + [s])
        else if ls[lineNumber] == s then AlreadyThere
        else Rewrite(ls[lineNumber := s])
  }

  /** Lines without newlines, written and read back, are the same lines. */
  lemma {:induction false} ReadRender(lines: seq<string>)
    requires NoNewline(lines)
    ensures ReadLines(Render(lines)) == lines
    decreases |lines|
  {
    if lines != [] {
      var text := Render(lines);
      var l := lines[0];
      assert text == l + ("\n" + Render(lines[1..]));
      LineEndOf(l, "\n" + Render(lines[1..]));
      assert text[..|l|] == l;
      assert text[|l| + 1..] == Render(lines[1..]);
      ReadRender(lines[1..]);
      assert [l] + lines[1..] == lines;
    }
  }

  lemma {:induction false} LineEndOf(l: string, rest: string)
    requires '\n' !in l && rest != [] && rest[0] == '\n'
    ensures LineEnd(l + rest) == |l|
    decreases |l|
  {
    if l != [] {
      assert (l + rest)[1..] == l[1..] + rest;
      LineEndOf(l[1..], rest);
    } else {
      assert l + rest == rest;
    }
  }

  /**
   * A negative line number leaves the file holding exactly one line, the text
   * given, whatever the file held or whether it could be read.
   */
  lemma {:induction false} NegativeLineReplacesFile(content: Option<string>, lineNumber: int, s: string)
    requires lineNumber < 0 && '\n' !in s
    ensures Updated(content, lineNumber, s).Rewrite?
    ensures ReadLines(Render(Updated(content, lineNumber, s).lines)) == [s]
  {
    ReadRender([s]);
  }

  /**
   * With a line number of 0 or more: an unreadable file is an error; the file is left
   * alone exactly when the line exists and already holds `s`; otherwise line
   * `lineNumber` becomes `s`, the file grows to `lineNumber + 1` lines with empty
   * padding when it was shorter, and every other line is kept.
   */
  lemma {:induction false} UpdatedSetsLine(content: Option<string>, lineNumber: int, s: string)
    requires lineNumber >= 0
    ensures Updated(content, lineNumber, s).Unreadable? <==> content.None?
    ensures content.Some? ==>
      var ls := ReadLines(content.value);
      var u := Updated(content, lineNumber, s);
      (u.AlreadyThere? <==> lineNumber < |ls| && ls[lineNumber] == s)
      && (u.Rewrite? ==>
            |u.lines| == (if lineNumber < |ls| then |ls| else lineNumber + 1)
            && u.lines[lineNumber] == s
            && (forall i :: 0 <= i < |ls| && i != lineNumber ==> u.lines[i] == ls[i])
            && (forall i :: |ls| <= i < lineNumber ==> u.lines[i] == ""))
  {
  }

  /** Every line of a rewrite is free of newlines when `s` is. */
  lemma {:induction false} UpdatedNoNewline(content: Option<string>, lineNumber: int, s: string)
    requires '\n' !in s && Updated(content, lineNumber, s).Rewrite?
    ensures NoNewline(Updated(content, lineNumber, s).lines)
  {
  }

  /**
   * Setting a line is idempotent: once the file has been rewritten, setting the same
   * line to the same text again finds it there and leaves the file alone.
   */
  lemma {:induction false} RewriteThenAlreadyThere(content: Option<string>, lineNumber: int, s: string)
    requires lineNumber >= 0 && '\n' !in s && Updated(content, lineNumber, s).Rewrite?
    ensures Updated(Some(Render(Updated(content, lineNumber, s).lines)), lineNumber, s) == AlreadyThere
  {
    var u := Updated(content, lineNumber, s);
    UpdatedNoNewline(content, lineNumber, s);
    ReadRender(u.lines);
    UpdatedSetsLine(content, lineNumber, s);
  }

  /** The `getline` loop: every line of `text`, in order. */
  method ReadAllLines(text: string) returns (lines: seq<string>)
    ensures lines == ReadLines(text)
  {
    lines := [];
    var pos := 0;
    while pos < |text|
      invariant 0 <= pos <= |text|
      invariant lines + ReadLines(text[pos..]) == ReadLines(text)
      decreases |text| - pos
    {
      var rest := text[pos..];
      var k := LineEnd(rest);
      var next := if pos + k < |text| then pos + k + 1 else |text|;
      NextLine(text, pos, k, next);
      TakeLine(lines, text[pos..pos + k], ReadLines(text[next..]), ReadLines(rest));
      lines := lines + [text[pos..pos + k]];
      pos := next;
    }
    assert text[pos..] == [];
  }

  /** One `getline` call: the line from `pos`, and where the next one starts. */
  lemma {:induction false} NextLine(text: string, pos: nat, k: nat, next: nat)
    requires pos < |text| && k == LineEnd(text[pos..])
    requires next == if pos + k < |text| then pos + k + 1 else |text|
    ensures ReadLines(text[pos..]) == [text[pos..pos + k]] + ReadLines(text[next..])
  {
    var rest := text[pos..];
    assert rest[..k] == text[pos..pos + k];
    if pos + k < |text| {
      assert rest[k + 1..] == text[next..];
    } else {
      assert text[next..] == [];
    }
  }

  lemma {:induction false} TakeLine(lines: seq<string>, line: string, after: seq<string>, here: seq<string>)
    requires here == [line] + after
    ensures lines + here == (lines + [line]) + after
  {
  }

  /** The output loop: each line, then a newline. */
  method WriteAllLines(lines: seq<string>) returns (out: string)
    ensures out == Render(lines)
  {
    out := "";
    var i := 0;
    while i < |lines|
      invariant 0 <= i <= |lines|
      invariant out + Render(lines[i..]) == Render(lines)
      decreases |lines| - i
    {
      RenderFrom(lines, i);
      PutLine(out, lines[i], Render(lines[i + 1..]), Render(lines[i..]));
      out := out + lines[i] + "\n";
      i := i + 1;
    }
  }

  lemma {:induction false} RenderFrom(lines: seq<string>, i: nat)
    requires i < |lines|
    ensures Render(lines[i..]) == lines[i] + "\n" + Render(lines[i + 1..])
  {
    assert lines[i..][1..] == lines[i + 1..];
  }

  lemma {:induction false} PutLine(out: string, line: string, after: string, here: string)
    requires here == line + "\n" + after
    ensures out + here == (out + line + "\n") + after
  {
  }

  /**
   * `writeStringToLine(filename, lineNumber, newString)` on a file holding `content`;
   * `writeOk` says whether the file can be opened for writing. It returns 0 or -1
   * and the new text of the file, `None` when the file is left as it was.
   */
  method WriteStringToLine(content: Option<string>, lineNumber: int, newString: string, writeOk: bool)
    returns (r: int, written: Option<string>)
    ensures Updated(content, lineNumber, newString).Rewrite? && writeOk ==>
      r == 0 && written == Some(Render(Updated(content, lineNumber, newString).lines))
    ensures Updated(content, lineNumber, newString).AlreadyThere? ==> r == 0 && written == None
    ensures Updated(content, lineNumber, newString).Unreadable? ==> r == -1 && written == None
    ensures Updated(content, lineNumber, newString).Rewrite? && !writeOk ==> r == -1 && written == None
  {
    var lines: seq<string>;
    if lineNumber < 0 {
      lines := [newString];
    } else {
      if content.None? {
        return -1, None;
      }
      lines := ReadAllLines(content.value);
      if lineNumber >= |lines| {
        lines := lines + Blanks(lineNumber - |lines|) + [newString];
      } else {
        if lines[lineNumber] == newString {
          return 0, None;
        }
        lines := lines[lineNumber := newString];
      }
    }
    if !writeOk {
      return -1, None;
    }
    var out := WriteAllLines(lines);
    return 0, Some(out);
  }
}
