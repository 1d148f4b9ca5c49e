/**
 * The deterministic parts of the OSD module (`ModuleOsd`): the configuration file
 * parser with its quoted-text and duration fields, the assembly of the overlay text
 * list, the display plane rectangle, and the recording rollover on presentation
 * timestamps.
 */
module Osd {
  import opened Wire
  import opened LineFile

  // ---------------------------------------------------------------------------
  // Tokens, as `>>` on a string stream extracts them

  /** The characters `>>` skips: space, tab, newline, vertical tab, form feed, carriage return. */
  predicate IsSpace(c: char)
  {
    c == ' ' || c == '\t' || c == '\n' || c == '\r' || c as int == 11 || c as int == 12
  }

  /** How many whitespace characters `s` starts with. */
  function SpaceRun(s: string): (k: nat)
    ensures k <= |s| && (forall i :: 0 <= i < k ==> IsSpace(s[i])) && (k < |s| ==> !IsSpace(s[k]))
    decreases |s|
  {
    if s == [] || !IsSpace(s[0]) then 0 else 1 + SpaceRun(s[1..])
  }

  /** How many non-whitespace characters `s` starts with. */
  function WordRun(s: string): (k: nat)
    ensures k <= |s| && (forall i :: 0 <= i < k ==> !IsSpace(s[i])) && (k < |s| ==> IsSpace(s[k]))
    decreases |s|
  {
    if s == [] || IsSpace(s[0]) then 0 else 1 + WordRun(s[1..])
  }

  predicate IsWord(w: string)
  {
    w != [] && forall i :: 0 <= i < |w| ==> !IsSpace(w[i])
  }

  /** The whitespace-separated words of `s`, in order. */
  function Tokens(s: string): (r: seq<string>)
    ensures forall i :: 0 <= i < |r| ==> IsWord(r[i])
    decreases |s|
  {
    var a := SpaceRun(s);
    if a == |s| then []
    else
      var t := s[a..];
      var k := WordRun(t);
      [t[..k]] + Tokens(t[k..])
  }

  /** A word followed by whitespace (or by nothing) is the first token. */
  lemma {:induction false} TokensOfWord(w: string, rest: string)
    requires IsWord(w) && (rest == [] || IsSpace(rest[0]))
    ensures Tokens(w + rest) == [w] + Tokens(rest)
  {
    WordRunOf(w, rest);
    assert SpaceRun(w + rest) == 0 by {
      assert (w + rest)[0] == w[0];
    }
    assert (w + rest)[0..] == w + rest;
    assert (w + rest)[..|w|] == w;
    assert (w + rest)[|w|..] == rest;
  }

  lemma {:induction false} WordRunOf(w: string, rest: string)
    requires (forall i :: 0 <= i < |w| ==> !IsSpace(w[i])) && (rest == [] || IsSpace(rest[0]))
    ensures WordRun(w + rest) == |w|
    decreases |w|
  {
    if w == [] {
      assert w + rest == rest;
    } else {
      assert (w + rest)[1..] == w[1..] + rest;
      WordRunOf(w[1..], rest);
    }
  }

  /** After one space, the first token starts with the character that follows it. */
  lemma {:induction false} FirstTokenAfterSpace(q: string)
    requires q != [] && !IsSpace(q[0])
    ensures Tokens(" " + q) != [] && Tokens(" " + q)[0][0] == q[0]
  {
    var s := " " + q;
    assert s[1..] == q;
    assert SpaceRun(s) == 1;
    assert s[1..][..WordRun(q)][0] == q[0];
  }

  // ---------------------------------------------------------------------------
  // Field parsers

  /** Where `c` first occurs in `s`. */
  function FirstIndexOf(s: string, c: char): (r: Option<nat>)
    ensures r.Some? ==> r.value < |s| && s[r.value] == c && c !in s[..r.value]
    ensures r.None? ==> c !in s
  {
    if c !in s then None
    else if s[0] == c then Some(0)
    else
      var k := FirstIndexOf(s[1..], c).value;
      assert s[..k + 1] == [s[0]] + s[1..][..k];
      Some(k + 1)
  }

  /** Where `c` last occurs in `s`. */
  function LastIndexOf(s: string, c: char): (r: Option<nat>)
    ensures r.Some? ==> r.value < |s| && s[r.value] == c && c !in s[r.value + 1..]
    ensures r.None? ==> c !in s
  {
    if c !in s then None
    else if s[|s| - 1] == c then Some(|s| - 1)
    else
      var k := LastIndexOf(s[..|s| - 1], c).value;
      assert s[k + 1..] == s[..|s| - 1][k + 1..] + [s[|s| - 1]];
      Some(k)
  }

  /**
   * `parseTextString`: the next word of the line (the current value when there is
   * none); a word starting with a double quote is replaced by what lies between the
   * first and the last double quote of the whole line, when those are two different
   * quotes.
   */
  function TextParsed(line: string, rest: seq<string>, cur: string): string
  {
    var str := if rest != [] then rest[0] else cur;
    if str != [] && str[0] == '"' then
      match (FirstIndexOf(line, '"'), LastIndexOf(line, '"'))
      case (Some(p1), Some(p2)) => if p2 > p1 then line[p1 + 1..p2] else str
      case _ => str
    else str
  }

  /** A word that does not start with a double quote is taken as it is. */
  lemma {:induction false} UnquotedTextKept(line: string, rest: seq<string>, cur: string)
    requires rest != [] && (rest[0] == [] || rest[0][0] != '"')
    ensures TextParsed(line, rest, cur) == rest[0]
  {
  }

  /** A line with a single double quote keeps the raw word, quote included. */
  lemma {:induction false} SingleQuoteKept(line: string, rest: seq<string>, cur: string)
    requires rest != [] && rest[0] != [] && rest[0][0] == '"'
    requires FirstIndexOf(line, '"') == LastIndexOf(line, '"')
    ensures TextParsed(line, rest, cur) == rest[0]
  {
  }

  /** A configuration line holding `key`, a space and `body` between double quotes. */
  function QuotedLine(key: string, body: string): string
  {
    key + " \"" + body + "\""
  }

  /** The quoted line's words: the key, then a word starting at the opening quote. */
  lemma {:induction false} QuotedLineTokens(key: string, body: string)
    requires IsWord(key)
    ensures var t := Tokens(QuotedLine(key, body));
      |t| >= 2 && t[0] == key && t[1][0] == '"'
  {
    var rest := " " + ("\"" + body + "\"");
    assert QuotedLine(key, body) == key + rest;
    TokensOfWord(key, rest);
    QuotedRestTokens(body);
  }

  /** After the key, the words of ` "text"` start with the opening quote. */
  lemma {:induction false} QuotedRestTokens(body: string)
    ensures var u := Tokens(" " + ("\"" + body + "\""));
      u != [] && u[0][0] == '"'
  {
    var q := "\"" + body + "\"";
    assert q[0] == '"';
    FirstTokenAfterSpace(q);
  }

  /** The quoted line's first double quote opens the body and its last one closes it. */
  lemma {:induction false} QuotedLineQuotes(key: string, body: string)
    requires '"' !in key
    ensures var line := QuotedLine(key, body);
      FirstIndexOf(line, '"') == Some(|key| + 1) && LastIndexOf(line, '"') == Some(|line| - 1)
      && line[|key| + 2..|line| - 1] == body
  {
    var line := QuotedLine(key, body);
    var p1 := |key| + 1;
    assert line[..p1] == key + " ";
    assert line[p1] == '"';
    FirstIndexUnique(line, '"', p1);
    assert line[|line| - 1] == '"';
  }

  /**
   * The quoted form: `key "text"` gives back the text, spaces and inner quotes
   * included.
   */
  lemma {:induction false} QuotedTextParsed(key: string, body: string, cur: string)
    requires IsWord(key) && '"' !in key
    ensures var line := QuotedLine(key, body);
      |Tokens(line)| >= 2 && Tokens(line)[0] == key
      && TextParsed(line, Tokens(line)[1..], cur) == body
  {
    QuotedLineTokens(key, body);
    QuotedLineQuotes(key, body);
  }

  lemma {:induction false} FirstIndexUnique(s: string, c: char, p: nat)
    requires p < |s| && s[p] == c && c !in s[..p]
    ensures FirstIndexOf(s, c) == Some(p)
  {
  }

  const Int32Max: int := 0x7FFF_FFFF
  const Int32Min: int := -0x8000_0000

  predicate IsDigit(c: char)
  {
    '0' <= c <= '9'
  }

  /** How many digits `s` starts with. */
  function DigitRun(s: string): (k: nat)
    ensures k <= |s| && forall i :: 0 <= i < k ==> IsDigit(s[i])
    decreases |s|
  {
    if s == [] || !IsDigit(s[0]) then 0 else 1 + DigitRun(s[1..])
  }

  /** The value of a string of digits. */
  function DigitsValue(s: string): nat
    requires forall i :: 0 <= i < |s| ==> IsDigit(s[i])
    decreases |s|
  {
    if s == [] then 0
    else
      assert IsDigit(s[|s| - 1]);
      DigitsValue(s[..|s| - 1]) * 10 + (s[|s| - 1] as nat - '0' as nat)
  }

  function Clamp32(v: int): (r: int)
    ensures Int32Min <= r <= Int32Max
    ensures Int32Min <= v <= Int32Max ==> r == v
  {
    if v > Int32Max then Int32Max else if v < Int32Min then Int32Min else v
  }

  /**
   * `>>` into an `int` from the next word: an optional sign and the digits that
   * follow; 0 when there are none; the nearest limit when the value does not fit.
   * The current value when there is no word at all.
   */
  function IntRead(rest: seq<string>, cur: int): (r: int)
    ensures rest == [] ==> r == cur
  {
    if rest == [] then cur
    else
      var tok := rest[0];
      var signed := tok != [] && (tok[0] == '-' || tok[0] == '+');
      var body := if signed then tok[1..] else tok;
      var k := DigitRun(body);
      if k == 0 then 0
      else
        var v: int := DigitsValue(body[..k]);
        Clamp32(if signed && tok[0] == '-' then -v else v)
  }

  /** A word of digits whose value fits reads as that value. */
  lemma {:induction false} IntReadDigits(tok: string, more: seq<string>, cur: int)
    requires tok != [] && forall i :: 0 <= i < |tok| ==> IsDigit(tok[i])
    requires DigitsValue(tok) <= Int32Max
    ensures IntRead([tok] + more, cur) == DigitsValue(tok)
  {
    assert DigitRun(tok) == |tok| by {
      DigitRunAll(tok);
    }
    assert tok[..|tok|] == tok;
  }

  lemma {:induction false} DigitRunAll(s: string)
    requires forall i :: 0 <= i < |s| ==> IsDigit(s[i])
    ensures DigitRun(s) == |s|
    decreases |s|
  {
    if s != [] {
      DigitRunAll(s[1..]);
    }
  }

  /** The microseconds per second the duration is scaled by. */
  const MicrosPerSecond: int := 1000000

  /** Two's-complement truncation to 32 bits. */
  function Wrap32(v: int): (r: int)
    ensures Int32Min <= r <= Int32Max
    ensures (r - v) % 0x1_0000_0000 == 0
  {
    (v - Int32Min) % 0x1_0000_0000 + Int32Min
  }

  /** `parseFileMaxDuration` as written: the scaling is done in the 32-bit `int` field. */
  function FileMaxDurationAsWritten(seconds: int): int
  {
    if seconds > 0 then Wrap32(seconds * MicrosPerSecond) else seconds
  }

  /**
   * `parseFileMaxDuration` as intended: positive seconds become microseconds, the
   * unit of the presentation timestamps; other values are kept.
   */
  function FileMaxDuration(seconds: int): (micros: int)
    ensures seconds > 0 ==> micros > 0 && micros % MicrosPerSecond == 0 && micros / MicrosPerSecond == seconds
    ensures seconds <= 0 ==> micros == seconds
  {
    if seconds > 0 then seconds * MicrosPerSecond else seconds
  }

  /** Up to 2147 seconds the two agree; from 2148 seconds the written scaling overflows. */
  lemma {:induction false} FileMaxDurationFits(seconds: int)
    requires seconds <= 2147
    ensures FileMaxDurationAsWritten(seconds) == FileMaxDuration(seconds)
  {
  }

  /** One hour, the evident use, wraps to a negative duration as written. */
  lemma {:induction false} FileMaxDurationOneHour()
    ensures FileMaxDuration(3600) == 3_600_000_000
    ensures FileMaxDurationAsWritten(3600) == -694_967_296
  {
  }

  // ---------------------------------------------------------------------------
  // The configuration file

  /**
   * The configuration fields the other helpers read; every other key keeps the
   * words that followed it on its last line.
   */
  datatype OsdConf = OsdConf(
    osdDev: string, osdEtc: string, osdFps: string, osdTime: string,
    fMaxDuration: int,
    others: map<string, seq<string>>)

  const DefaultConf: OsdConf := OsdConf("", "", "", "", 0, map[])

  /** The keys whose parser is a plain extraction into the configuration. */
  const PlainKeys: set<string> := {
    "vDev", "aDev", "iImgPara", "oImgPara", "oRotate", "osdFpsDiff", "osdTextPara",
    "osdLineStep", "encType", "encFps", "systemFreeSize", "outputFile", "outputFileDir",
    "displayEnable", "aplayEnable", "aplayDev", "display", "displayFps", "displayCorp",
    "pushVideoEnable", "pushAudioEnable", "pushFps", "pushPort", "pushPath", "pushPara",
    "broadcastPort"}

  /** The keys with a parser of their own. */
  const TextKeys: set<string> := {"osdDevText", "osdFpsText", "osdTimeText", "osdEtcFile", "fileMaxDuration"}

  /** The parser `key` selects, run on the rest of `line`. */
  function Apply(key: string, line: string, rest: seq<string>, c: OsdConf): OsdConf
  {
    if key == "osdDevText" then c.(osdDev := TextParsed(line, rest, c.osdDev))
    else if key == "osdFpsText" then c.(osdFps := TextParsed(line, rest, c.osdFps))
    else if key == "osdTimeText" then c.(osdTime := TextParsed(line, rest, c.osdTime))
    else if key == "osdEtcFile" then c.(osdEtc := if rest != [] then rest[0] else c.osdEtc)
    else if key == "fileMaxDuration" then c.(fMaxDuration := FileMaxDuration(IntRead(rest, c.fMaxDuration)))
    else if key in PlainKeys then c.(others := if rest == [] then c.others else c.others[key := rest])
    else c
  }

  /** The key last read (`temp`) and the configuration so far. */
  datatype ParserState = ParserState(key: string, conf: OsdConf)

  /** Whether the loop skips a line: empty, or a comment from its first character. */
  predicate Skipped(line: string)
  {
    line == [] || line[0] == '#'
  }

  /**
   * One line: skipped, or its first word becomes the key and the key's parser runs.
   * A line of whitespace only reads no word, so the previous key's parser runs again.
   */
  function LineStep(line: string, st: ParserState): ParserState
  {
    if Skipped(line) then st
    else
      var toks := Tokens(line);
      var key := if toks != [] then toks[0] else st.key;
      var rest := if toks != [] then toks[1..] else [];
      ParserState(key, Apply(key, line, rest, st.conf))
  }

  /** The lines in order. */
  function ParseLines(lines: seq<string>, st: ParserState): ParserState
    decreases |lines|
  {
    if lines == [] then st else ParseLines(lines[1..], LineStep(lines[0], st))
  }

  /** Parsing a file in two parts is parsing the first and going on with the second. */
  lemma {:induction false} ParseLinesAppend(a: seq<string>, b: seq<string>, st: ParserState)
    ensures ParseLines(a + b, st) == ParseLines(b, ParseLines(a, st))
    decreases |a|
  {
    if a == [] {
      assert a + b == b;
    } else {
      assert (a + b)[1..] == a[1..] + b;
      ParseLinesAppend(a[1..], b, LineStep(a[0], st));
    }
  }

  lemma {:induction false} ParseLinesStep(lines: seq<string>, i: nat, st: ParserState)
    requires i < |lines|
    ensures ParseLines(lines[i..], st) == ParseLines(lines[i + 1..], LineStep(lines[i], st))
  {
    assert lines[i..][1..] == lines[i + 1..];
  }

  /** Comment lines and empty lines change nothing. */
  lemma {:induction false} SkippedLineChangesNothing(line: string, st: ParserState)
    requires Skipped(line)
    ensures LineStep(line, st) == st
  {
  }

  /** A line whose first word is not a key leaves the configuration as it was. */
  lemma {:induction false} UnknownKeyIgnored(line: string, st: ParserState)
    requires !Skipped(line) && Tokens(line) != []
    requires Tokens(line)[0] !in PlainKeys && Tokens(line)[0] !in TextKeys
    ensures LineStep(line, st).conf == st.conf
  {
  }

  /** `osdDevText "text"` sets the device text to the text between the quotes, and nothing else. */
  lemma {:induction false} DeviceTextLine(body: string, st: ParserState)
    ensures var s := LineStep(QuotedLine("osdDevText", body), st);
      s.conf == st.conf.(osdDev := body) && s.key == "osdDevText"
  {
    QuotedTextParsed("osdDevText", body, st.conf.osdDev);
  }

  /** A whitespace-only line runs the previous key's parser again with no words. */
  lemma {:induction false} BlankLineRepeatsKey(line: string, st: ParserState)
    requires !Skipped(line) && Tokens(line) == []
    ensures LineStep(line, st) == ParserState(st.key, Apply(st.key, line, [], st.conf))
  {
  }

  /**
   * A blank line after a key whose parser only extracts words finds nothing to
   * extract, so the words stored for that key stay as they were.
   */
  lemma {:induction false} BlankLineKeepsPlainWords(line: string, st: ParserState)
    requires !Skipped(line) && Tokens(line) == [] && st.key in PlainKeys
    ensures LineStep(line, st) == st
  {
    assert st.key !in TextKeys;
  }

  /** So a blank line after `fileMaxDuration` scales the duration once more. */
  lemma {:induction false} BlankLineRescalesDuration(st: ParserState)
    requires st.key == "fileMaxDuration" && st.conf.fMaxDuration > 0
    ensures LineStep(" ", st).conf.fMaxDuration == st.conf.fMaxDuration * MicrosPerSecond
  {
    assert SpaceRun(" ") == 1;
  }

  /**
   * `parseConfFileInfo` on the file `confFile`, whose text is `fileData` (None when
   * it cannot be opened or read): -1 with the configuration untouched for an empty
   * name, an unreadable file or an empty one (`readFile` gives no text for a file of
   * length 0), otherwise 0 with every line applied in order, starting with no key.
   */
  method ParseConfFileInfo(confFile: string, fileData: Option<string>, conf: OsdConf)
    returns (r: int, parsed: OsdConf)
    ensures confFile == "" || fileData.None? || fileData == Some("") ==> r == -1 && parsed == conf
    ensures confFile != "" && fileData.Some? && fileData.value != "" ==>
      r == 0 && parsed == ParseLines(ReadLines(fileData.value), ParserState("", conf)).conf
  {
    if confFile == "" {
      return -1, conf;
    }
    if fileData.None? || fileData.value == "" {
      return -1, conf;
    }
    var lines := ReadAllLines(fileData.value);
    var key := "";
    parsed := conf;
    var i := 0;
    while i < |lines|
      invariant 0 <= i <= |lines|
      invariant ParseLines(lines[i..], ParserState(key, parsed)) == ParseLines(lines, ParserState("", conf))
      decreases |lines| - i
    {
      ParseLinesStep(lines, i, ParserState(key, parsed));
      key, parsed := ApplyLine(lines[i], key, parsed);
      i := i + 1;
    }
    r := 0;
  }

  /**
   * One pass of the loop body: a skipped line changes nothing; otherwise its first
   * word (if any) becomes the key and the key's handler gets the remaining words.
   */
  method ApplyLine(line: string, key: string, conf: OsdConf) returns (key': string, conf': OsdConf)
    ensures ParserState(key', conf') == LineStep(line, ParserState(key, conf))
    ensures Skipped(line) ==> key' == key && conf' == conf
  {
    key', conf' := key, conf;
    if !Skipped(line) {
      var toks := Tokens(line);
      var rest := [];
      if toks != [] {
        key' := toks[0];
        rest := toks[1..];
      }
      conf' := Apply(key', line, rest, conf);
    }
  }

  // ---------------------------------------------------------------------------
  // Display plane rectangle

  /** A rectangle on the display plane. */
  datatype Rect = Rect(x: nat, y: nat, w: nat, h: nat)

  function Min(a: nat, b: nat): nat
  {
    if a <= b then a else b
  }

  /**
   * The plane rectangle for a plane of `th` by `tv` pixels: the configured crop
   * clipped to the plane when it has a width and a height, otherwise the output
   * image, clipped and centred.
   */
  function PlaneRect(th: nat, tv: nat, crop: Rect, outWidth: nat, outHeight: nat): (r: Rect)
    ensures r.x + r.w <= th && r.y + r.h <= tv
  {
    if crop.h > 0 && crop.w > 0 then
      var x := Min(th, crop.x);
      var y := Min(tv, crop.y);
      Rect(x, y, Min(th - x, crop.w), Min(tv - y, crop.h))
    else
      var w := Min(th, outWidth);
      var h := Min(tv, outHeight);
      Rect((th - w) / 2, (tv - h) / 2, w, h)
  }

  /** A crop that fits the plane is used as it is. */
  lemma {:induction false} CropInsidePlane(th: nat, tv: nat, crop: Rect, outWidth: nat, outHeight: nat)
    requires crop.h > 0 && crop.w > 0
    requires crop.x + crop.w <= th && crop.y + crop.h <= tv
    ensures PlaneRect(th, tv, crop, outWidth, outHeight) == crop
  {
  }

  /**
   * Without a crop the image is as large as the plane allows, and centred: the
   * margins on either side differ by at most one pixel.
   */
  lemma {:induction false} UncroppedCentred(th: nat, tv: nat, crop: Rect, outWidth: nat, outHeight: nat)
    requires crop.h == 0 || crop.w == 0
    ensures var r := PlaneRect(th, tv, crop, outWidth, outHeight);
      r.w == Min(th, outWidth) && r.h == Min(tv, outHeight)
      && 0 <= (th - r.x - r.w) - r.x <= 1 && 0 <= (tv - r.y - r.h) - r.y <= 1
  {
  }

  // ---------------------------------------------------------------------------
  // Recording rollover

  /** The event word and the two timestamps of the frame callback. */
  datatype PtsState = PtsState(event: bv32, current: int, start: int)

  /**
   * The end of the frame callback for a frame stamped `pts`: the first frame starts
   * the segment; a later one that lies more than `maxDuration` after the start,
   * with a non-zero `maxDuration`, raises event bit 0 and starts a new segment.
   */
  function Rolled(s: PtsState, pts: int, maxDuration: int): PtsState
  {
    if s.start < 0 then s.(current := pts, start := pts)
    else if maxDuration != 0 && pts - s.start > maxDuration then PtsState(s.event | 1, pts, pts)
    else s.(current := pts)
  }

  /** Whether a frame ends the segment. */
  predicate RollsOver(s: PtsState, pts: int, maxDuration: int)
  {
    s.start >= 0 && maxDuration != 0 && pts - s.start > maxDuration
  }

  /**
   * The event bit is raised exactly on a rollover, and other bits are kept; the
   * segment restarts at the frame.
   */
  lemma {:induction false} RolledEvent(s: PtsState, pts: int, maxDuration: int)
    ensures var t := Rolled(s, pts, maxDuration);
      t.current == pts
      && (RollsOver(s, pts, maxDuration) ==> t.event & 1 == 1 && SameUpperBits(t.event, s.event) && t.start == pts)
      && (!RollsOver(s, pts, maxDuration) ==> t.event == s.event)
  {
    if RollsOver(s, pts, maxDuration) {
      RaiseBitZero(s.event);
    }
  }

  /** Bits 1 to 31 agree. */
  predicate SameUpperBits(a: bv32, b: bv32)
  {
    a & 0xFFFF_FFFE == b & 0xFFFF_FFFE
  }

  lemma {:induction false} RaiseBitZero(e: bv32)
    ensures (e | 1) & 1 == 1 && SameUpperBits(e | 1, e)
  {
  }

  /** With a positive duration, a segment never spans more than the duration after the callback. */
  lemma {:induction false} RolledSegmentBound(s: PtsState, pts: int, maxDuration: int)
    requires maxDuration > 0
    ensures Rolled(s, pts, maxDuration).current - Rolled(s, pts, maxDuration).start <= maxDuration
  {
  }

  /**
   * With the duration of one hour as written, every frame after the first that is
   * not older than the segment's start ends the segment.
   */
  lemma {:induction false} AsWrittenHourRollsEveryFrame(s: PtsState, pts: int)
    requires s.start >= 0 && pts >= s.start
    ensures RollsOver(s, pts, FileMaxDurationAsWritten(3600))
    ensures !RollsOver(s, pts, FileMaxDuration(3600)) <==> pts - s.start <= 3_600_000_000
  {
    FileMaxDurationOneHour();
  }

  // ---------------------------------------------------------------------------
  // The overlay text

  /**
   * The overlay text after `handletEtcText`, from the text `prev` before it: when a
   * text file is configured and `readFileLines` returned `ret > 0` with the lines
   * `v`, the text is those lines, after the device text when there is one.
   */
  function EtcText(prev: seq<string>, conf: OsdConf, ret: int, v: seq<string>): (r: seq<string>)
    ensures conf.osdEtc == "" || ret <= 0 ==> r == prev
    ensures conf.osdEtc != "" && ret > 0 ==> |v| <= |r| && r[|r| - |v|..] == v
    ensures conf.osdEtc != "" && ret > 0 ==> (r == v <==> conf.osdDev == "")
    ensures conf.osdEtc != "" && ret > 0 && conf.osdDev != "" ==> r[0] == conf.osdDev
  {
    if conf.osdEtc == "" || ret <= 0 then prev
    else if conf.osdDev == "" then v
    else [conf.osdDev] + v
  }

  /**
   * The overlay text at the end of the text part of `init`: the text file's lines,
   * then the device text alone when a device text is configured and the text is
   * still empty.
   */
  function TextAfterInit(prev: seq<string>, conf: OsdConf, ret: int, v: seq<string>): (r: seq<string>)
    ensures conf.osdDev == "" ==> r == EtcText(prev, conf, ret, v)
    ensures conf.osdDev != "" ==> r != [] && (r[0] == conf.osdDev || r == prev)
    ensures conf.osdDev != "" && prev == [] ==> r[0] == conf.osdDev
    ensures conf.osdDev != "" && EtcText(prev, conf, ret, v) != [] ==> r == EtcText(prev, conf, ret, v)
  {
    var t := EtcText(prev, conf, ret, v);
    if conf.osdDev != "" && t == [] then [conf.osdDev] else t
  }

  // ---------------------------------------------------------------------------
  // The module's state

  class ModuleOsd {
    const confFile: string
    var para: OsdConf
    /** The overlay text lines. */
    var osdText: seq<string>
    var event: bv32
    var currentPts: int
    var startPts: int

    function Pts(): PtsState
      reads this
    {
      PtsState(event, currentPts, startPts)
    }

    /** No text, no event, both timestamps -1, the configuration's defaults. */
    constructor (filename: string)
      ensures confFile == filename && para == DefaultConf && osdText == []
      ensures Pts() == PtsState(0, -1, -1)
    {
      confFile := filename;
      para := DefaultConf;
      osdText := [];
      event := 0;
      currentPts := -1;
      startPts := -1;
    }

    /**
     * `handletEtcText` after reading the text file: `ret` is the count
     * `readFileLines` returns and `v` the lines it read. When a file is configured
     * and lines were read, the text becomes the lines, after the device text when
     * there is one.
     */
    method HandleEtcText(ret: int, v: seq<string>)
      modifies this
      ensures para.osdEtc != "" && ret > 0 && para.osdDev == "" ==> osdText == v
      ensures para.osdEtc != "" && ret > 0 && para.osdDev != "" ==> osdText == [para.osdDev] + v
      ensures para.osdEtc == "" || ret <= 0 ==> osdText == old(osdText)
      ensures osdText == EtcText(old(osdText), para, ret, v)
      ensures para == old(para) && Pts() == old(Pts())
    {
      if para.osdEtc != "" && ret > 0 {
        if para.osdDev == "" {
          osdText := v;
        } else {
          osdText := [para.osdDev];
          var i := 0;
          while i < |v|
            invariant 0 <= i <= |v| && osdText == [para.osdDev] + v[..i]
            invariant para == old(para) && Pts() == old(Pts())
            decreases |v| - i
          {
            assert v[..i + 1] == v[..i] + [v[i]];
            osdText := osdText + [v[i]];
            i := i + 1;
          }
          assert v[..i] == v;
        }
      }
    }

    /**
     * The configuration and text part of `init`: parse the configuration file,
     * whose text is `fileData`, into `para` (-1 and nothing changed when that
     * fails, including for an empty file), then `handletEtcText` with the text file's `ret` and `v`, then the
     * device text alone if the text is still empty.
     */
    method InitText(fileData: Option<string>, ret: int, v: seq<string>) returns (r: int)
      modifies this
      ensures confFile == "" || fileData.None? || fileData == Some("") ==>
        r == -1 && para == old(para) && osdText == old(osdText)
      ensures confFile != "" && fileData.Some? && fileData.value != "" ==>
        r == 0 && para == ParseLines(ReadLines(fileData.value), ParserState("", old(para))).conf
        && osdText == TextAfterInit(old(osdText), para, ret, v)
      ensures Pts() == old(Pts())
    {
      var parsed;
      r, parsed := ParseConfFileInfo(confFile, fileData, para);
      if r != 0 {
        return;
      }
      para := parsed;
      HandleEtcText(ret, v);
      if para.osdDev != "" && |osdText| == 0 {
        osdText := osdText + [para.osdDev];
      }
    }

    /** The rollover at the end of the frame callback, for a frame stamped `pts`. */
    method OnFrame(pts: int)
      modifies this
      ensures Pts() == Rolled(old(Pts()), pts, para.fMaxDuration)
      ensures para == old(para) && osdText == old(osdText)
    {
      currentPts := pts;
      if startPts < 0 {
        startPts := currentPts;
      } else if para.fMaxDuration != 0 && currentPts - startPts > para.fMaxDuration {
        event := event | 1;
        startPts := currentPts;
      }
    }
  }
}
