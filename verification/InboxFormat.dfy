/**
 * The on-disk form of an inbox message (`inbox.py`): a hand-written frontmatter
 * printer and parser, and the in-place update of the `read_at` line.
 */
module InboxFormat {
  import opened Text

  datatype Header = Header(
    id: string, fromUser: string, fromEmail: Option<string>, toUser: string, subject: string, sentAt: string,
    inReplyTo: Option<string>, priority: string, kind: string)

  datatype Message = Message(header: Header, readAt: Option<string>, body: string)

  datatype Defect = NoFrontmatter | Unclosed | MissingField(name: string)

  datatype ReadResult = Parsed(message: Message) | Malformed(why: Defect)

  type Dictionary = map<string, Option<string>>

  // ----- lines -----------------------------------------------------------------

  /** The characters `str.splitlines()` breaks at. */
  predicate IsLineBreak(c: char)
  {
    '\n' <= c <= '\r' || '\U{1c}' <= c <= '\U{1e}' || c == '\U{85}' || c == '\U{2028}' || c == '\U{2029}'
  }

  predicate BreakFree(s: string)
  {
    forall i :: 0 <= i < |s| ==> !IsLineBreak(s[i])
  }

  function LineLength(s: string): (n: nat)
    ensures n <= |s| && BreakFree(s[..n]) && (n < |s| ==> IsLineBreak(s[n]))
  {
    if s == "" || IsLineBreak(s[0]) then 0
    else
      var n := LineLength(s[1..]);
      assert s[..n + 1] == [s[0]] + s[1..][..n];
      n + 1
  }

  /** `s.splitlines()`. */
  function SplitLines(s: string): seq<string>
  {
    if s == "" then []
    else
      var n := LineLength(s);
      if n == |s| then [s]
      else [s[..n]] + SplitLines(s[n + (if "\r\n" <= s[n..] then 2 else 1)..])
  }

  /** `"\n".join(lines)`. */
  function JoinLines(lines: seq<string>): string
  {
    if lines == [] then "" else if |lines| == 1 then lines[0] else lines[0] + ("\n" + JoinLines(lines[1..]))
  }

  /** Reading a text file turns `\r\n` and `\r` into `\n`. */
  function Universal(s: string): string
  {
    if s == "" then ""
    else if s[0] == '\r' then "\n" + Universal(if "\r\n" <= s then s[2..] else s[1..])
    else [s[0]] + Universal(s[1..])
  }

  /** `s.lstrip("\n")`. */
  function DropNewlines(s: string): string
  {
    if s != "" && s[0] == '\n' then DropNewlines(s[1..]) else s
  }

  // ----- values ----------------------------------------------------------------

  predicate Special(c: char)
  {
    c in "\":\n#&*![]{}|>%@`"
  }

  predicate NeedsQuote(s: string)
  {
    (exists i :: 0 <= i < |s| && Special(s[i])) || Lower(s) in ["true", "false", "null", "yes", "no", "~"]
  }

  /** `s.replace("\\", "\\\\")`. */
  function EscapeBackslashes(s: string): string
  {
    if s == "" then "" else (if s[0] == '\\' then "\\\\" else [s[0]]) + EscapeBackslashes(s[1..])
  }

  /** `s.replace('"', '\\"')`. */
  function EscapeQuotes(s: string): string
  {
    if s == "" then "" else (if s[0] == '"' then "\\\"" else [s[0]]) + EscapeQuotes(s[1..])
  }

  /** `s.replace('\\"', '"')`: leftmost matches, not overlapping. */
  function UnescapeQuotes(s: string): string
  {
    if s == "" then ""
    else if "\\\"" <= s then "\"" + UnescapeQuotes(s[2..])
    else [s[0]] + UnescapeQuotes(s[1..])
  }

  /** `s.replace("\\\\", "\\")`. */
  function UnescapeBackslashes(s: string): string
  {
    if s == "" then ""
    else if "\\\\" <= s then "\\" + UnescapeBackslashes(s[2..])
    else [s[0]] + UnescapeBackslashes(s[1..])
  }

  function YamlValue(v: Option<string>): string
  {
    match v
    case None => "null"
    case Some(s) => if NeedsQuote(s) then "\"" + EscapeQuotes(EscapeBackslashes(s)) + "\"" else s
  }

  /** What the parser makes of the text after the colon. */
  function ParseValue(text: string): Option<string>
  {
    var v := Strip(text);
    if v == "null" || v == "" then None
    else if v[0] == '"' && v[|v| - 1] == '"' then
      Some(UnescapeBackslashes(UnescapeQuotes(if |v| == 1 then "" else v[1..|v| - 1])))
    else Some(v)
  }

  // ----- printing --------------------------------------------------------------

  /** One frontmatter line: a key and the printed text of its value. */
  datatype Entry = Entry(key: string, text: string) {
    function Line(): string {
      key + (": " + text)
    }
  }

  /** The frontmatter with `mark` standing after `read_at:`. */
  function Entries(h: Header, mark: string): (es: seq<Entry>)
    ensures |es| == 10
  {
    [ Entry("id", YamlValue(Some(h.id))),
      Entry("from_user", YamlValue(Some(h.fromUser))),
      Entry("from_email", YamlValue(h.fromEmail)),
      Entry("to_user", YamlValue(Some(h.toUser))),
      Entry("subject", YamlValue(Some(h.subject))),
      Entry("sent_at", YamlValue(Some(h.sentAt))),
      Entry("read_at", mark),
      Entry("in_reply_to", YamlValue(h.inReplyTo)),
      Entry("priority", YamlValue(Some(h.priority))),
      Entry("type", YamlValue(Some(h.kind))) ]
  }

  function LinesOf(es: seq<Entry>): (lines: seq<string>)
    ensures |lines| == |es| && forall i :: 0 <= i < |es| ==> lines[i] == es[i].Line()
  {
    if es == [] then [] else [es[0].Line()] + LinesOf(es[1..])
  }

  /** A file with the given entries whose text after the blank line is `tail`. */
  function FileText(es: seq<Entry>, tail: string): string
  {
    "---\n" + (JoinLines(LinesOf(es)) + ("\n---\n\n" + tail))
  }

  /** `_render_message`. */
  function Render(h: Header, body: string): string
  {
    FileText(Entries(h, "null"), RStrip(body) + "\n")
  }

  // ----- parsing ---------------------------------------------------------------

  function ColonAt(s: string): (n: nat)
    ensures n <= |s| && ':' !in s[..n] && (n < |s| ==> s[n] == ':')
  {
    if s == "" || s[0] == ':' then 0
    else
      var n := ColonAt(s[1..]);
      assert s[..n + 1] == [s[0]] + s[1..][..n];
      n + 1
  }

  function AddLine(fields: Dictionary, line: string): Dictionary
  {
    var n := ColonAt(line);
    if n == |line| then fields else fields[Strip(line[..n]) := ParseValue(line[n + 1..])]
  }

  /** The dictionary the parser fills: a later line for a key replaces an earlier one. */
  function FieldsOf(lines: seq<string>): Dictionary
  {
    if lines == [] then map[] else AddLine(FieldsOf(lines[..|lines| - 1]), lines[|lines| - 1])
  }

  function Get(fields: Dictionary, key: string): Option<string>
  {
    if key in fields then fields[key] else None
  }

  /** Python's truth of a dictionary value. */
  predicate Present(v: Option<string>)
  {
    v.Some? && v.value != ""
  }

  function FirstMissing(fields: Dictionary, names: seq<string>): Option<string>
  {
    if names == [] then None
    else if !Present(Get(fields, names[0])) then Some(names[0])
    else FirstMissing(fields, names[1..])
  }

  const REQUIRED := ["id", "from_user", "to_user", "subject", "sent_at"]

  function OrElse(v: Option<string>, default: string): string
  {
    if Present(v) then v.value else default
  }

  function FromFields(fields: Dictionary, body: string): ReadResult
  {
    match FirstMissing(fields, REQUIRED)
    case Some(name) => Malformed(MissingField(name))
    case None =>
      Parsed(Message(
        Header(
          OrElse(Get(fields, "id"), ""), OrElse(Get(fields, "from_user"), ""), Get(fields, "from_email"),
          OrElse(Get(fields, "to_user"), ""), OrElse(Get(fields, "subject"), ""), OrElse(Get(fields, "sent_at"), ""),
          Get(fields, "in_reply_to"), OrElse(Get(fields, "priority"), "normal"), OrElse(Get(fields, "type"), "chat")),
        Get(fields, "read_at"), body))
  }

  /** Where the closing fence starts, `|s|` when there is none. */
  function FenceAt(s: string): (n: nat)
    ensures n <= |s|
    ensures forall i :: 0 <= i < n ==> !("\n---" <= s[i..])
    ensures n < |s| ==> "\n---" <= s[n..]
  {
    if s == "" || "\n---" <= s then 0
    else
      var n := FenceAt(s[1..]);
      assert forall i :: 1 <= i <= |s| ==> s[i..] == s[1..][i - 1..];
      n + 1
  }

  /** What follows the opening delimiter, cut at the closing fence. */
  function ReadRest(rest: string): ReadResult
  {
    var n := FenceAt(rest);
    if n == |rest| then Malformed(Unclosed)
    else FromFields(FieldsOf(SplitLines(rest[..n])), DropNewlines(rest[n + 4..]))
  }

  /** `_read_message`. */
  function Read(file: string): ReadResult
  {
    var text := Universal(file);
    if "---" <= text then ReadRest(DropNewlines(text[3..])) else Malformed(NoFrontmatter)
  }

  method ParseFields(lines: seq<string>) returns (fields: Dictionary)
    ensures fields == FieldsOf(lines)
  {
    fields := map[];
    for i := 0 to |lines|
      invariant fields == FieldsOf(lines[..i])
    {
      assert lines[..i + 1][..i] == lines[..i];
      var n := ColonAt(lines[i]);
      if n < |lines[i]| {
        fields := fields[Strip(lines[i][..n]) := ParseValue(lines[i][n + 1..])];
      }
    }
    assert lines[..|lines|] == lines;
  }

  method ReadMessage(file: string) returns (r: ReadResult)
    ensures r == Read(file)
  {
    var text := Universal(file);
    if !("---" <= text) {
      return Malformed(NoFrontmatter);
    }
    var rest := DropNewlines(text[3..]);
    var n := FenceAt(rest);
    if n == |rest| {
      return Malformed(Unclosed);
    }
    var fields := ParseFields(SplitLines(rest[..n]));
    r := FromFields(fields, DropNewlines(rest[n + 4..]));
  }

  // ----- the read_at line ------------------------------------------------------

  function LineEnd(s: string): (n: nat)
    ensures n <= |s| && '\n' !in s[..n] && (n < |s| ==> s[n] == '\n')
  {
    if s == "" || s[0] == '\n' then 0
    else
      var n := LineEnd(s[1..]);
      assert s[..n + 1] == [s[0]] + s[1..][..n];
      n + 1
  }

  predicate IsReadAtLine(line: string)
  {
    "read_at:" <= line
  }

  /** The first line that starts with `read_at:` replaced, the rest as it was. */
  function SetReadAt(text: string, when: string): string
  {
    var n := LineEnd(text);
    if IsReadAtLine(text[..n]) then "read_at: " + (when + text[n..])
    else if n == |text| then text
    else text[..n + 1] + SetReadAt(text[n + 1..], when)
  }
}
