/**
 * The data file in which every handler logs each accepted frame as one text line
 * (`dataOutputFile`, `dataOutputTmpFile`, `dataOutputMaxLines`, `dataOutputCurLines`).
 *
 * Lines go to a current file whose name is a time stamp derived from the configured
 * path plus ".txt". When the count of lines in the current file has reached the
 * maximum, the next line first opens a new file and resets the count. The count grows
 * only when the append succeeds. The clock reading that names a new file and the
 * outcome of the append are parameters.
 */
module DataLog {

  /** One line appended to the named file. */
  datatype Record = Record(file: string, line: string)

  /** The logger's fields, plus every line appended so far in order. */
  datatype LogState = LogState(
    outputFile: string,
    tmpFile: string,
    maxLines: int,
    curLines: int,
    records: seq<Record>)

  /**
   * Either the next line opens a new file, or the last `curLines` lines all went to
   * the current file.
   */
  predicate Consistent(s: LogState)
  {
    s.curLines >= s.maxLines ||
    (0 <= s.curLines <= |s.records| &&
     forall i :: |s.records| - s.curLines <= i < |s.records| ==> s.records[i].file == s.tmpFile)
  }

  /** Whether logging one more line opens a new file first. */
  predicate Rotates(s: LogState)
  {
    s.outputFile != "" && s.curLines >= s.maxLines
  }

  /** The state after logging `line`; `stamp` names a new file, `writeOk` is the append's outcome. */
  function Logged(s: LogState, line: string, stamp: string, writeOk: bool): LogState
  {
    if s.outputFile == "" then s
    else
      var t := if s.curLines >= s.maxLines then s.(tmpFile := stamp + ".txt", curLines := 0) else s;
      if writeOk then t.(curLines := t.curLines + 1, records := t.records + [Record(t.tmpFile, line)])
      else t
  }

  /** Logging keeps the count consistent with the lines in the current file. */
  lemma {:induction false} LoggedConsistent(s: LogState, line: string, stamp: string, writeOk: bool)
    requires Consistent(s)
    ensures Consistent(Logged(s, line, stamp, writeOk))
  {
  }

  /**
   * With a positive maximum, the current file never holds more lines than the maximum:
   * after any append the count is between 0 and the maximum, and the line went to a
   * new file exactly when the count had reached the maximum.
   */
  lemma {:induction false} LoggedBounded(s: LogState, line: string, stamp: string, writeOk: bool)
    requires s.outputFile != "" && s.maxLines > 0 && s.curLines >= 0
    ensures 0 <= Logged(s, line, stamp, writeOk).curLines <= s.maxLines
    ensures Rotates(s) ==> Logged(s, line, stamp, writeOk).tmpFile == stamp + ".txt"
    ensures !Rotates(s) ==> Logged(s, line, stamp, writeOk).tmpFile == s.tmpFile
  {
  }

  /**
   * Only a successful append adds a line, and it goes to the current file; every line
   * logged before stays as it was.
   */
  lemma {:induction false} LoggedAppends(s: LogState, line: string, stamp: string, writeOk: bool)
    ensures var t := Logged(s, line, stamp, writeOk);
      t.records == s.records + (if s.outputFile != "" && writeOk then [Record(t.tmpFile, line)] else [])
  {
  }

  class RotatingLogger {
    /** The configured path; empty means logging is off. */
    var outputFile: string
    /** The file lines currently go to. */
    var tmpFile: string
    var maxLines: int
    var curLines: int
    /** Every line appended so far, in order, with the file it went to. */
    var records: seq<Record>

    function State(): LogState
      reads this
    {
      LogState(outputFile, tmpFile, maxLines, curLines, records)
    }

    ghost predicate Valid()
      reads this
    {
      Consistent(State())
    }

    /** The handlers' constructors: no path, maximum and count both 0. */
    constructor ()
      ensures Valid()
      ensures State() == LogState("", "", 0, 0, [])
    {
      outputFile := "";
      tmpFile := "";
      maxLines := 0;
      curLines := 0;
      records := [];
    }

    /**
     * `setDataOutputFile`: the count is set to the maximum, so the next line starts a
     * new file.
     */
    method SetDataOutputFile(filename: string, max: int)
      modifies this
      ensures Valid()
      ensures State() == old(State()).(outputFile := filename, maxLines := max, curLines := max)
    {
      outputFile := filename;
      maxLines := max;
      curLines := max;
    }

    /**
     * Logs one line. `stamp` is the time-stamped name derived from the path, and
     * `writeOk` says whether the append succeeded.
     */
    method Append(line: string, stamp: string, writeOk: bool)
      requires Valid()
      modifies this
      ensures Valid()
      ensures State() == Logged(old(State()), line, stamp, writeOk)
    {
      LoggedConsistent(State(), line, stamp, writeOk);
      if outputFile != "" {
        if curLines >= maxLines {
          tmpFile := stamp + ".txt";
          curLines := 0;
        }
        if writeOk {
          records := records + [Record(tmpFile, line)];
          curLines := curLines + 1;
        }
      }
    }
  }
}
