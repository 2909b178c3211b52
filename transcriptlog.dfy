/**
  The conversation log file (stream_server.py lines 649-666): `reset_log`
  truncates it to one start marker, `append_log` adds one line per non-empty
  text, and `read_log` returns what is in it ("" when there is no file), with
  its line endings translated as a text-mode read does.
  A line's clock reading (`_ts`, "%H:%M:%S") is supplied by the caller.
*/
module TranscriptLog {
  import Text

  /** The roles the relay writes: "SYSTEM", "Caller" and "AI". */
  datatype Role = System | Caller | Ai

  function RoleName(role: Role): (n: string)
    ensures n != [] && '[' !in n && ']' !in n
  {
    match role
    case System => "SYSTEM"
    case Caller => "Caller"
    case Ai => "AI"
  }

  /** One line of the file, before rendering. */
  datatype LogLine =
    | Marker(ts: string)                            // written by reset_log
    | Entry(ts: string, role: Role, text: string)   // written by append_log

  /** A line as it appears in the file, newline included. */
  function LineText(l: LogLine): (t: string)
    ensures |t| >= 1 && t[0] == '[' && t[|t| - 1] == '\n'
  {
    match l
    case Marker(ts) => "[" + ts + "] --- Call Started ---\n"
    case Entry(ts, role, text) => "[" + ts + "] [" + RoleName(role) + "] " + text + "\n"
  }

  /** The contents of the file holding `lines`, oldest first. */
  function Render(lines: seq<LogLine>): string
  {
    if lines == [] then "" else LineText(lines[0]) + Render(lines[1..])
  }

  /** The lines after `append_log(role, text)` at clock reading `ts`: an empty
      text writes nothing, any other text writes exactly one line at the end. */
  function Appended(lines: seq<LogLine>, role: Role, text: string, ts: string): (r: seq<LogLine>)
    ensures |r| == |lines| + (if text == "" then 0 else 1)
    ensures r[..|lines|] == lines
    ensures text != "" ==> r[|lines|] == Entry(ts, role, text)
    ensures Started(lines) ==> Started(r)
  {
    if text == "" then lines else lines + [Entry(ts, role, text)]
  }

  /** The shape of the file of one call since `reset_log`: the marker, then
      entries, none of them with an empty text. */
  predicate Started(lines: seq<LogLine>)
  {
    |lines| >= 1 && lines[0].Marker?
    && forall i :: 1 <= i < |lines| ==> lines[i].Entry? && lines[i].text != ""
  }

  /** The file is the concatenation of its lines, whichever way they are split. */
  lemma {:induction false} RenderConcat(a: seq<LogLine>, b: seq<LogLine>)
    ensures Render(a + b) == Render(a) + Render(b)
    decreases |a|
  {
    if a == [] {
      assert a + b == b;
    } else {
      var ab := a + b;
      assert ab[0] == a[0];
      assert ab[1..] == a[1..] + b;
      RenderConcat(a[1..], b);
    }
  }

  /** The file text after `append_log`: what was there and, for a non-empty text,
      the line "[ts] [ROLE] text" after it. */
  lemma AppendedText(lines: seq<LogLine>, role: Role, text: string, ts: string)
    ensures Render(Appended(lines, role, text, ts)) ==
      Render(lines) + (if text == "" then "" else "[" + ts + "] [" + RoleName(role) + "] " + text + "\n")
  {
    if text != "" {
      var e := Entry(ts, role, text);
      RenderConcat(lines, [e]);
      assert [e][1..] == [];
    }
  }

  /** A started file is never blank: it begins with "[ts] --- Call Started ---". */
  lemma StartedNotBlank(lines: seq<LogLine>)
    requires Started(lines)
    ensures |Render(lines)| > 0 && Render(lines)[0] == '['
    ensures !Text.IsBlank(Render(lines))
  {
    var head := LineText(lines[0]);
    assert Render(lines) == head + Render(lines[1..]);
    assert Render(lines)[0] == head[0];
    assert !Text.IsSpace('[');
  }

  // ---- Reading the file back ----

  /** What a text-mode read with universal newlines returns for the bytes `s`
      of a file: each "\r\n" and each lone "\r" comes back as "\n". */
  function ReadNewlines(s: string): (r: string)
    ensures |r| <= |s|
    decreases |s|
  {
    if s == [] then []
    else if s[0] == '\r' then
      if |s| >= 2 && s[1] == '\n' then "\n" + ReadNewlines(s[2..]) else "\n" + ReadNewlines(s[1..])
    else [s[0]] + ReadNewlines(s[1..])
  }

  /** No carriage return survives the read. */
  lemma {:induction false} ReadHasNoReturn(s: string)
    ensures '\r' !in ReadNewlines(s)
    decreases |s|
  {
    if s != [] {
      if s[0] == '\r' && |s| >= 2 && s[1] == '\n' {
        ReadHasNoReturn(s[2..]);
      } else {
        ReadHasNoReturn(s[1..]);
      }
    }
  }

  /** A file without a carriage return reads back as written. */
  lemma {:induction false} ReadWithoutReturn(s: string)
    requires '\r' !in s
    ensures ReadNewlines(s) == s
    decreases |s|
  {
    if s != [] {
      assert '\r' !in s[1..];
      ReadWithoutReturn(s[1..]);
      assert s == [s[0]] + s[1..];
    }
  }

  /** The file reads back exactly as written if and only if it holds no
      carriage return (one in a transcript, say). */
  lemma ReadUnchangedIff(s: string)
    ensures ReadNewlines(s) == s <==> '\r' !in s
  {
    ReadHasNoReturn(s);
    if '\r' !in s {
      ReadWithoutReturn(s);
    }
  }

  /** A started file is not blank when read back either: its first character,
      '[', is kept. */
  lemma StartedReadsNotBlank(lines: seq<LogLine>)
    requires Started(lines)
    ensures var t := ReadNewlines(Render(lines)); |t| > 0 && t[0] == '['
    ensures !Text.IsBlank(ReadNewlines(Render(lines)))
  {
    StartedNotBlank(lines);
    var s := Render(lines);
    assert ReadNewlines(s) == [s[0]] + ReadNewlines(s[1..]);
    assert !Text.IsSpace('[');
  }

  /** The file `conversation_log.txt`. A file that does not exist reads as "",
      which is also what an empty list of lines renders to. */
  class ConversationLog {
    var lines: seq<LogLine>

    constructor ()
      ensures lines == []
    {
      lines := [];
    }

    /** `reset_log()`: truncate the file to the start marker. */
    method Reset(ts: string)
      modifies this
      ensures lines == [Marker(ts)]
      ensures Started(lines)
    {
      lines := [Marker(ts)];
    }

    /** `append_log(role, text)`. */
    method Append(role: Role, text: string, ts: string)
      modifies this
      ensures lines == Appended(old(lines), role, text, ts)
    {
      if text != "" {
        lines := lines + [Entry(ts, role, text)];
      }
    }

    /** `read_log()`: the file is opened in text mode, so line endings are
        translated on the way back. */
    method Read() returns (text: string)
      ensures text == ReadNewlines(Render(lines))
      ensures '\r' !in Render(lines) ==> text == Render(lines)
    {
      ReadUnchangedIff(Render(lines));
      text := ReadNewlines(Render(lines));
    }
  }
}
