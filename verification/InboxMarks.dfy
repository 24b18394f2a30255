/** Setting `read_at` in a stored file changes that field and nothing else. */
module InboxMarks {
  import opened Text
  import opened InboxFormat
  import opened InboxRoundTrip

  /** `_atomic_set_read_at`: the file afterwards. */
  function Touch(file: string, when: string): string
  {
    var text := Universal(file);
    var marked := SetReadAt(text, when);
    if marked == text then file else marked
  }

  /** A stamp is read back as it stands, without quotes around it. */
  predicate IsStamp(w: string)
  {
    w != "" && Trimmed(w) && BreakFree(w) && w != "null" && w[0] != '"'
  }

  lemma StampIsRead(w: string)
    requires IsStamp(w)
    ensures ParseValue(w) == Some(w)
  {
    StripTrims(w);
  }

  // ----- where the replacement lands -------------------------------------------

  lemma LineEndThen(line: string, x: string)
    requires '\n' !in line && (x == "" || x[0] == '\n')
    ensures LineEnd(line + x) == |line| && (line + x)[..|line|] == line && (line + x)[|line|..] == x
  {
    var s := line + x;
    var n := LineEnd(s);
    assert forall i :: 0 <= i < n ==> s[..n][i] == s[i];
    assert forall i :: 0 <= i < |line| ==> s[i] == line[i];
    assert x != "" ==> s[|line|] == x[0];
  }

  lemma FirstLineIsSkipped(text: string, w: string)
    requires LineEnd(text) < |text| && !IsReadAtLine(text[..LineEnd(text)])
    ensures SetReadAt(text, w) == text[..LineEnd(text) + 1] + SetReadAt(text[LineEnd(text) + 1..], w)
  {
    hide LineEnd, IsReadAtLine;
  }

  lemma LineIsSkipped(line: string, rest: string, w: string)
    requires '\n' !in line && !IsReadAtLine(line)
    ensures SetReadAt(line + ("\n" + rest), w) == line + ("\n" + SetReadAt(rest, w))
  {
    hide LineEnd, SetReadAt, IsReadAtLine;
    LineEndThen(line, "\n" + rest);
    var s := line + ("\n" + rest);
    FirstLineIsSkipped(s, w);
    assert s[..|line| + 1] == line + "\n" && s[|line| + 1..] == rest;
    assert line + "\n" + SetReadAt(rest, w) == line + ("\n" + SetReadAt(rest, w));
  }

  lemma LineIsReplaced(line: string, x: string, w: string)
    requires '\n' !in line && IsReadAtLine(line) && (x == "" || x[0] == '\n')
    ensures SetReadAt(line + x, w) == "read_at: " + (w + x)
  {
    LineEndThen(line, x);
  }

  lemma OnlyTheKeyMatches(e: Entry)
    requires IsKey(e.key)
    ensures IsReadAtLine(e.Line()) <==> e.key == "read_at"
  {
    var line := e.Line();
    var probe := "read_at:";
    assert forall i :: 0 <= i < |e.key| ==> line[i] == e.key[i];
    assert line[|e.key|] == ':';
    assert |probe| == 8 && probe[7] == ':' && probe[..7] == "read_at";
    assert forall i :: 0 <= i < 7 ==> probe[i] != ':';
    if probe <= line {
      assert forall i :: 0 <= i < 8 ==> line[i] == probe[i];
      assert |e.key| == 7;
      assert e.key == line[..7] == probe[..7];
    }
    if e.key == "read_at" {
      assert line[..8] == "read_at" + ":" == probe;
    }
  }

  lemma MarkedLine(w: string)
    ensures Entry("read_at", w).Line() == "read_at: " + w
  {
  }

  lemma Regroup(a: string, b: string, x: string)
    ensures a + ("\n" + b) + x == a + ("\n" + (b + x))
  {
  }

  lemma JoinFirst(es: seq<Entry>, x: string)
    requires es != []
    ensures JoinLines(LinesOf(es)) + x
            == es[0].Line() + (if |es| == 1 then x else "\n" + (JoinLines(LinesOf(es[1..])) + x))
  {
    var lines := LinesOf(es);
    assert lines[0] == es[0].Line() && lines[1..] == LinesOf(es[1..]);
    if |es| > 1 {
      Regroup(lines[0], JoinLines(lines[1..]), x);
    }
  }

  lemma {:induction false} EntryIsMarked(es: seq<Entry>, i: nat, x: string, w: string)
    requires Clean(es) && i < |es| && es[i].key == "read_at"
    requires forall j :: 0 <= j < i ==> es[j].key != "read_at"
    requires x != "" && x[0] == '\n'
    ensures SetReadAt(JoinLines(LinesOf(es)) + x, w) == JoinLines(LinesOf(es[i := Entry("read_at", w)])) + x
    decreases i
  {
    hide SetReadAt, JoinLines, LinesOf, IsKey, BreakFree, IsReadAtLine;
    var after := es[i := Entry("read_at", w)];
    JoinFirst(es, x);
    JoinFirst(after, x);
    EntryLineIsBreakFree(es[0]);
    OnlyTheKeyMatches(es[0]);
    if i == 0 {
      MarkedLine(w);
      assert after[1..] == es[1..];
      var y := if |es| == 1 then x else "\n" + (JoinLines(LinesOf(es[1..])) + x);
      LineIsReplaced(es[0].Line(), y, w);
      assert "read_at: " + (w + y) == "read_at: " + w + y;
    } else {
      assert after[1..] == es[1..][i - 1 := Entry("read_at", w)];
      EntryIsMarked(es[1..], i - 1, x, w);
      LineIsSkipped(es[0].Line(), JoinLines(LinesOf(es[1..])) + x, w);
    }
  }

  lemma EndedLineIsSkipped(line: string, ended: string, rest: string, w: string)
    requires '\n' !in line && !IsReadAtLine(line) && ended == line + "\n"
    ensures SetReadAt(ended + rest, w) == ended + SetReadAt(rest, w)
  {
    hide IsReadAtLine, SetReadAt;
    LineIsSkipped(line, rest, w);
    assert ended + rest == line + ("\n" + rest);
    assert ended + SetReadAt(rest, w) == line + ("\n" + SetReadAt(rest, w));
  }

  lemma DelimiterIsSkipped(rest: string, w: string)
    ensures SetReadAt("---\n" + rest, w) == "---\n" + SetReadAt(rest, w)
  {
    assert "---\n" == "---" + "\n" && !IsReadAtLine("---");
    hide IsReadAtLine, SetReadAt;
    EndedLineIsSkipped("---", "---\n", rest, w);
  }

  lemma ReadAtIsTheSeventhKey(h: Header, mark: string, w: string)
    ensures var es := Entries(h, mark);
      es[6].key == "read_at" && (forall j :: 0 <= j < 6 ==> es[j].key != "read_at")
      && es[6 := Entry("read_at", w)] == Entries(h, w)
  {
    KeysAreDistinct(h, mark);
    assert Entries(h, mark)[6].key == "read_at";
  }

  /** In a printed file the replaced line is the frontmatter's, even if the body has such lines. */
  lemma MarkLandsInTheHeader(h: Header, mark: string, tail: string, w: string)
    requires HeaderBreakFree(h) && BreakFree(mark)
    ensures SetReadAt(Universal(FileText(Entries(h, mark), tail)), w) == FileText(Entries(h, w), Universal(tail))
  {
    var es := Entries(h, mark);
    EntriesAreClean(h, mark);
    UniversalOfFile(es, tail);
    ReadAtIsTheSeventhKey(h, mark, w);
    var x := "\n---\n\n" + Universal(tail);
    EntryIsMarked(es, 6, x, w);
    DelimiterIsSkipped(JoinLines(LinesOf(es)) + x, w);
  }

  // ----- what is read afterwards -----------------------------------------------

  /** The file has the printer's form, whatever its values and body. */
  ghost predicate Printed(file: string)
  {
    exists h: Header, mark: string, tail: string ::
      file == FileText(Entries(h, mark), tail) && HeaderBreakFree(h) && BreakFree(mark)
  }

  function WithReadAt(r: ReadResult, w: string): ReadResult
  {
    match r
    case Malformed(_) => r
    case Parsed(m) => Parsed(m.(readAt := Some(w)))
  }

  lemma {:induction false} SameMissing(f: Dictionary, g: Dictionary, names: seq<string>)
    requires forall i :: 0 <= i < |names| ==> Get(f, names[i]) == Get(g, names[i])
    ensures FirstMissing(f, names) == FirstMissing(g, names)
  {
    if names != [] {
      SameMissing(f, g, names[1..]);
    }
  }

  lemma SameRequired(f: Dictionary, g: Dictionary)
    requires Get(f, "id") == Get(g, "id") && Get(f, "from_user") == Get(g, "from_user")
    requires Get(f, "to_user") == Get(g, "to_user") && Get(f, "subject") == Get(g, "subject")
    requires Get(f, "sent_at") == Get(g, "sent_at")
    ensures FirstMissing(f, REQUIRED) == FirstMissing(g, REQUIRED)
  {
    assert forall i :: 0 <= i < 5 ==> Get(f, REQUIRED[i]) == Get(g, REQUIRED[i]);
    SameMissing(f, g, REQUIRED);
  }

  lemma SameFields(f: Dictionary, g: Dictionary, body: string)
    requires FirstMissing(f, REQUIRED) == FirstMissing(g, REQUIRED)
    requires Get(f, "id") == Get(g, "id") && Get(f, "from_user") == Get(g, "from_user")
    requires Get(f, "to_user") == Get(g, "to_user") && Get(f, "subject") == Get(g, "subject")
    requires Get(f, "sent_at") == Get(g, "sent_at") && Get(f, "from_email") == Get(g, "from_email")
    requires Get(f, "in_reply_to") == Get(g, "in_reply_to") && Get(f, "priority") == Get(g, "priority")
    requires Get(f, "type") == Get(g, "type") && Get(g, "read_at").Some?
    ensures FromFields(g, body) == WithReadAt(FromFields(f, body), Get(g, "read_at").value)
  {
  }

  lemma MarkOnlyShowsInReadAt(h: Header, mark: string, w: string, body: string)
    requires IsStamp(w)
    ensures FromFields(FieldsOf(LinesOf(Entries(h, w))), body)
            == WithReadAt(FromFields(FieldsOf(LinesOf(Entries(h, mark))), body), w)
  {
    var f, g := FieldsOf(LinesOf(Entries(h, mark))), FieldsOf(LinesOf(Entries(h, w)));
    FieldsOfHeader(h, mark, f);
    FieldsOfHeader(h, w, g);
    StampIsRead(w);
    SameRequired(f, g);
    SameFields(f, g, body);
  }

  /** Touching a printed file sets `read_at` and keeps the header, the body and the form. */
  lemma TouchChangesOnlyReadAt(file: string, w: string)
    requires Printed(file) && IsStamp(w)
    ensures Printed(Touch(file, w))
    ensures Read(Touch(file, w)) == WithReadAt(Read(file), w)
  {
    var h: Header, mark: string, tail: string :|
      file == FileText(Entries(h, mark), tail) && HeaderBreakFree(h) && BreakFree(mark);
    MarkLandsInTheHeader(h, mark, tail, w);
    var marked := FileText(Entries(h, w), Universal(tail));
    ReadOfMarkedFile(h, mark, tail, w);
    TouchedText(file, marked, w);
  }

  lemma ReadOfMarkedFile(h: Header, mark: string, tail: string, w: string)
    requires HeaderBreakFree(h) && BreakFree(mark) && IsStamp(w)
    ensures Read(FileText(Entries(h, w), Universal(tail))) == WithReadAt(Read(FileText(Entries(h, mark), tail)), w)
  {
    EntriesAreClean(h, mark);
    EntriesAreClean(h, w);
    FileIsCutAtItsFences(Entries(h, mark), tail);
    FileIsCutAtItsFences(Entries(h, w), Universal(tail));
    UniversalTwice(tail);
    MarkOnlyShowsInReadAt(h, mark, w, DropNewlines(Universal(tail)));
  }

  lemma TouchedText(file: string, marked: string, w: string)
    requires SetReadAt(Universal(file), w) == marked
    ensures Touch(file, w) == marked || (Touch(file, w) == file && Universal(file) == marked)
    ensures Read(Touch(file, w)) == Read(marked)
  {
    UniversalTwice(file);
  }
}
