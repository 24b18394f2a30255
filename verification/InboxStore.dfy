/**
 * The inbox store of `inbox.py` on values: what a write stores, what a listing
 * shows and what marking as read leaves, with the laws that join them.
 */
module InboxStore {
  import opened Text
  import opened Times
  import opened InboxFormat
  import opened InboxRoundTrip
  import opened InboxMarks

  /** One recipient's `active` directory: file name to content. */
  type Box = map<string, string>

  // ----- time stamps -----------------------------------------------------------

  /** `strftime("%Y-%m-%dT%H:%M:%SZ")`. */
  function Stamp(t: Utc): string
  {
    Fields(t, "-", ":", "Z")
  }

  /** `s.replace(c, "")`. */
  function Without(s: string, c: char): string
  {
    if s == "" then "" else (if s[0] == c then "" else [s[0]]) + Without(s[1..], c)
  }

  function Compact(s: string): string
  {
    Without(Without(s, '-'), ':')
  }

  predicate StampCharacters(s: string)
  {
    forall i :: 0 <= i < |s| ==> IsDigit(s[i]) || s[i] in "-:TZ"
  }

  lemma {:induction false} PadIsDigits(n: nat, w: nat)
    ensures AllDigits(Pad(n, w))
  {
    if w > 0 {
      PadIsDigits(n / 10, w - 1);
    }
  }

  lemma {:induction false} WithoutJoins(a: string, b: string, c: char)
    ensures Without(a + b, c) == Without(a, c) + Without(b, c)
  {
    if a == "" {
      assert a + b == b;
    } else {
      WithoutJoins(a[1..], b, c);
      assert (a + b)[1..] == a[1..] + b && (a + b)[0] == a[0];
      assert Without(a + b, c) == (if a[0] == c then "" else [a[0]]) + Without(a[1..] + b, c);
    }
  }

  lemma {:induction false} DigitsStay(s: string, c: char)
    requires AllDigits(s) && !IsDigit(c)
    ensures Without(s, c) == s
  {
    if s != "" {
      DigitsStay(s[1..], c);
    }
  }

  lemma CompactField(n: nat, w: nat, sep: string, rest: string)
    requires sep in ["-", ":", "T"]
    ensures Compact(Pad(n, w) + (sep + rest)) == Pad(n, w) + ((if sep == "T" then sep else "") + Compact(rest))
  {
    var p := Pad(n, w);
    PadIsDigits(n, w);
    DigitsStay(p, '-');
    DigitsStay(p, ':');
    WithoutJoins(p, sep + rest, '-');
    WithoutJoins(sep, rest, '-');
    var s := Without(sep, '-');
    assert s == (if sep == "-" then "" else sep) by { assert Without("", '-') == ""; }
    WithoutJoins(p, s + Without(rest, '-'), ':');
    WithoutJoins(s, Without(rest, '-'), ':');
    assert Without(s, ':') == (if sep == "T" then sep else "") by { assert Without("", ':') == ""; }
  }

  /** Removing dashes and colons from a stamp leaves its digits in order. */
  lemma CompactStamp(t: Utc)
    ensures Compact(Stamp(t)) == Fields(t, "", "", "Z")
  {
    var s6 := Pad(t.second, 2) + "Z";
    var s5 := Pad(t.minute, 2) + (":" + s6);
    var s4 := Pad(t.hour, 2) + (":" + s5);
    var s3 := Pad(t.day, 2) + ("T" + s4);
    var s2 := Pad(t.month, 2) + ("-" + s3);
    CompactLast(t.second);
    CompactField(t.minute, 2, ":", s6);
    CompactField(t.hour, 2, ":", s5);
    CompactField(t.day, 2, "T", s4);
    CompactField(t.month, 2, "-", s3);
    CompactField(t.year, 4, "-", s2);
  }

  lemma CompactLast(n: nat)
    ensures Compact(Pad(n, 2) + "Z") == Pad(n, 2) + "Z"
  {
    PadIsDigits(n, 2);
    var p := Pad(n, 2);
    DigitsStay(p, '-');
    DigitsStay(p, ':');
    WithoutJoins(p, "Z", '-');
    WithoutJoins(p, "Z", ':');
    assert "Z"[1..] == "" && Without("Z", '-') == "Z" && Without("Z", ':') == "Z";
  }

  lemma StampFieldsJoin(n: nat, w: nat, sep: string, rest: string)
    requires StampCharacters(sep) && StampCharacters(rest)
    ensures StampCharacters(Pad(n, w) + (sep + rest))
  {
    PadIsDigits(n, w);
  }

  lemma StampIsPlain(t: Utc)
    ensures IsStamp(Stamp(t)) && NeedsQuote(Stamp(t))
  {
    var s6 := Pad(t.second, 2) + "Z";
    var s5 := Pad(t.minute, 2) + (":" + s6);
    var s4 := Pad(t.hour, 2) + (":" + s5);
    var s3 := Pad(t.day, 2) + ("T" + s4);
    var s2 := Pad(t.month, 2) + ("-" + s3);
    assert s6 == Pad(t.second, 2) + ("Z" + "");
    StampFieldsJoin(t.second, 2, "Z", "");
    StampFieldsJoin(t.minute, 2, ":", s6);
    StampFieldsJoin(t.hour, 2, ":", s5);
    StampFieldsJoin(t.day, 2, "T", s4);
    StampFieldsJoin(t.month, 2, "-", s3);
    StampFieldsJoin(t.year, 4, "-", s2);
    StampLooks(Stamp(t), |Stamp(t)| - |s5| + 2);
  }

  lemma StampLooks(s: string, i: nat)
    requires StampCharacters(s) && |s| > 4 && i < |s| && s[i] == ':'
    ensures IsStamp(s) && NeedsQuote(s)
  {
    assert Special(s[i]);
    assert "null"[0] == 'n';
  }

  // ----- writing ---------------------------------------------------------------

  /** The arguments of `write_message`. */
  datatype Draft = Draft(
    fromUser: string, fromEmail: Option<string>, toUser: string, body: string, subject: Option<string>,
    inReplyTo: Option<string>, priority: string, kind: string)

  datatype Refusal = NoUsers | BadPriority | EmptyBody | BadUserId | TooManyCollisions

  predicate ValidUserId(u: string)
  {
    u != "" && '/' !in u && !exists i :: 0 <= i < |u| - 1 && u[i] == '.' && u[i + 1] == '.'
  }

  function Check(d: Draft): Option<Refusal>
  {
    if d.fromUser == "" || d.toUser == "" then Some(NoUsers)
    else if d.priority !in ["low", "normal", "high"] then Some(BadPriority)
    else if Strip(d.body) == "" then Some(EmptyBody)
    else if !ValidUserId(d.toUser) then Some(BadUserId)
    else None
  }

  function Cut(s: string, n: nat): (r: string)
    ensures |r| <= n && r <= s
  {
    if |s| <= n then s else s[..n]
  }

  /** `re.sub(r"^[#>*\-]+\s*", "", line)`. */
  function DropLeaders(line: string): string
  {
    if line != "" && line[0] in "#>*-" then DropLeaders(line[1..]) else line
  }

  function StripLeaders(line: string): string
  {
    var r := DropLeaders(line);
    if r == line then line else LStrip(r)
  }

  /** The first line that is not blank. */
  function FirstText(lines: seq<string>): string
  {
    if lines == [] then "" else if Strip(lines[0]) != "" then Strip(lines[0]) else FirstText(lines[1..])
  }

  function DeriveSubject(body: string): string
  {
    Cut(StripLeaders(FirstText(SplitLines(body))), 80)
  }

  function EffectiveSubject(d: Draft): string
  {
    var s := Strip(OrElse(d.subject, DeriveSubject(d.body)));
    if s == "" then "(no subject)" else if |s| > 80 then RStrip(s[..80]) else s
  }

  /** A character `_slugify` keeps. */
  predicate IsIdChar(c: char)
  {
    'a' <= c <= 'z' || 'A' <= c <= 'Z' || IsDigit(c) || c == '_' || c == '-'
  }

  /** `re.sub(r"[^a-zA-Z0-9_-]+", "-", s)`, `inRun` when the character before was replaced. */
  function Dashed(s: string, inRun: bool): string
  {
    if s == "" then ""
    else if IsIdChar(s[0]) then [s[0]] + Dashed(s[1..], false)
    else (if inRun then "" else "-") + Dashed(s[1..], true)
  }

  /** `re.sub(r"-+", "-", s)`. */
  function SingleDashes(s: string, inRun: bool): string
  {
    if s == "" then ""
    else if s[0] != '-' then [s[0]] + SingleDashes(s[1..], false)
    else (if inRun then "" else "-") + SingleDashes(s[1..], true)
  }

  /** `s.strip("-")`. */
  function StripDashes(s: string): string
  {
    if s != "" && s[0] == '-' then StripDashes(s[1..])
    else if s != "" && s[|s| - 1] == '-' then StripDashes(s[..|s| - 1])
    else s
  }

  function Slugify(text: string): string
  {
    var s := StripDashes(SingleDashes(Dashed(Lower(Strip(text)), false), false));
    if s == "" then "msg" else s
  }

  /** The slug of a message's name. */
  function SlugOf(d: Draft): string
  {
    Cut(Slugify(EffectiveSubject(d)), 32)
  }

  /** Lower-case letters, digits, `_` and `-`. */
  predicate SlugCharacters(s: string)
  {
    forall i :: 0 <= i < |s| ==> 'a' <= s[i] <= 'z' || IsDigit(s[i]) || s[i] == '_' || s[i] == '-'
  }

  predicate IsSlug(s: string)
  {
    s != "" && SlugCharacters(s)
  }

  predicate NoCapitals(s: string)
  {
    forall i :: 0 <= i < |s| ==> !('A' <= s[i] <= 'Z')
  }

  lemma {:induction false} LowerHasNoCapitals(s: string)
    ensures NoCapitals(Lower(s))
  {
    if s != "" {
      LowerHasNoCapitals(s[1..]);
    }
  }

  lemma {:induction false} DashedIsPlain(s: string, inRun: bool)
    requires NoCapitals(s)
    ensures SlugCharacters(Dashed(s, inRun))
  {
    if s != "" {
      DashedIsPlain(s[1..], !IsIdChar(s[0]));
    }
  }

  lemma {:induction false} SingleDashesArePlain(s: string, inRun: bool)
    requires SlugCharacters(s)
    ensures SlugCharacters(SingleDashes(s, inRun))
  {
    if s != "" {
      SingleDashesArePlain(s[1..], s[0] == '-');
    }
  }

  lemma {:induction false} StripDashesIsPlain(s: string)
    requires SlugCharacters(s)
    ensures SlugCharacters(StripDashes(s))
    decreases |s|
  {
    if s != "" && s[0] == '-' {
      StripDashesIsPlain(s[1..]);
    } else if s != "" && s[|s| - 1] == '-' {
      StripDashesIsPlain(s[..|s| - 1]);
    }
  }

  /** Whatever the subject, the slug is not empty and fits a file name. */
  lemma SlugIsPlain(d: Draft)
    ensures IsSlug(SlugOf(d)) && |SlugOf(d)| <= 32
  {
    var t := Lower(Strip(EffectiveSubject(d)));
    LowerHasNoCapitals(Strip(EffectiveSubject(d)));
    DashedIsPlain(t, false);
    SingleDashesArePlain(Dashed(t, false), false);
    StripDashesIsPlain(SingleDashes(Dashed(t, false), false));
    hide EffectiveSubject, Lower, Strip, Dashed, SingleDashes, StripDashes;
  }

  function BaseId(fromUser: string, now: Utc, slug: string): string
  {
    Compact(Stamp(now)) + ("-" + (Cut(fromUser, 8) + ("-" + slug)))
  }

  function CandidateId(base: string, n: nat): string
  {
    if n == 0 then base else base + ("-" + Dec(n))
  }

  function FileName(id: string): string
  {
    id + ".md"
  }

  function HeaderOf(d: Draft, now: Utc, id: string): Header
  {
    Header(id, d.fromUser, d.fromEmail, d.toUser, EffectiveSubject(d), Stamp(now), d.inReplyTo, d.priority, d.kind)
  }

  /** The box after the n-th candidate was free. */
  function Stored(box: Box, d: Draft, now: Utc, slug: string, n: nat): Box
  {
    var id := CandidateId(BaseId(d.fromUser, now, slug), n);
    box[FileName(id) := Render(HeaderOf(d, now, id), d.body)]
  }

  // ----- what a written message reads back as ------------------------------------

  lemma EffectiveSubjectIsPlain(d: Draft)
    ensures var s := EffectiveSubject(d); s != "" && Trimmed(s) && |s| <= 80
  {
    var s := Strip(OrElse(d.subject, DeriveSubject(d.body)));
    StripTrims(OrElse(d.subject, DeriveSubject(d.body)));
    if |s| > 80 {
      RStripDropsSpaces(s[..80]);
      RStripKeepsHead(s[..80]);
    }
  }

  lemma {:induction false} RStripKeepsHead(s: string)
    requires s != "" && !IsSpace(s[0])
    ensures RStrip(s) != "" && RStrip(s)[0] == s[0]
  {
    if IsSpace(s[|s| - 1]) {
      RStripKeepsHead(s[..|s| - 1]);
    }
  }

  lemma {:induction false} FirstTextIsBreakFree(lines: seq<string>)
    requires forall i :: 0 <= i < |lines| ==> BreakFree(lines[i])
    ensures BreakFree(FirstText(lines))
  {
    if lines != [] {
      StripKeepsCharacters(lines[0]);
      var s := Strip(lines[0]);
      assert forall i :: 0 <= i < |s| ==> s[i] in lines[0];
      FirstTextIsBreakFree(lines[1..]);
    }
  }

  lemma {:induction false} DropLeadersIsSuffix(s: string)
    ensures |DropLeaders(s)| <= |s| && DropLeaders(s) == s[|s| - |DropLeaders(s)|..]
  {
    if s != "" && s[0] in "#>*-" {
      DropLeadersIsSuffix(s[1..]);
    }
  }

  /** A subject taken from the body never has a line break. */
  lemma DerivedSubjectIsBreakFree(body: string)
    ensures BreakFree(DeriveSubject(body))
  {
    SplitLinesAreBreakFree(body);
    FirstTextIsBreakFree(SplitLines(body));
    var line := FirstText(SplitLines(body));
    DropLeadersIsSuffix(line);
    LStripDropsSpaces(DropLeaders(line));
  }

  lemma {:induction false} StampedIdIsPlain(now: Utc, x: string, c: char)
    requires !IsSpace(c)
    ensures var id := Compact(Stamp(now)) + (x + [c]); id != "" && Trimmed(id)
  {
    CompactStamp(now);
    PadIsDigits(now.year, 4);
    var id := Compact(Stamp(now)) + (x + [c]);
    assert id[0] == Pad(now.year, 4)[0];
    assert id[|id| - 1] == c;
  }

  /** What follows the time in a message id. */
  function IdTail(fromUser: string, slug: string, n: nat): string
  {
    "-" + (Cut(fromUser, 8) + ("-" + slug)) + (if n == 0 then "" else "-" + Dec(n))
  }

  lemma IdEndsInItsTail(fromUser: string, now: Utc, slug: string, n: nat)
    ensures CandidateId(BaseId(fromUser, now, slug), n) == Compact(Stamp(now)) + IdTail(fromUser, slug, n)
  {
    hide Compact, Stamp, Dec, Cut;
  }

  lemma TailEndsInNoSpace(fromUser: string, slug: string, n: nat)
    requires IsSlug(slug)
    ensures var t := IdTail(fromUser, slug, n); t != "" && !IsSpace(t[|t| - 1])
  {
    hide Cut;
    DecIsANumeral(n);
    var t := IdTail(fromUser, slug, n);
    assert n == 0 ==> t[|t| - 1] == slug[|slug| - 1];
    assert n != 0 ==> t[|t| - 1] == Dec(n)[|Dec(n)| - 1];
  }

  lemma IdReturns(fromUser: string, now: Utc, slug: string, n: nat)
    requires IsSlug(slug)
    ensures Returns(CandidateId(BaseId(fromUser, now, slug), n))
  {
    var t := IdTail(fromUser, slug, n);
    TailEndsInNoSpace(fromUser, slug, n);
    IdEndsInItsTail(fromUser, now, slug, n);
    hide IdTail, BaseId, CandidateId, Compact, IsSpace, Dec;
    StampedIdIsPlain(now, t[..|t| - 1], t[|t| - 1]);
    assert t == t[..|t| - 1] + [t[|t| - 1]];
  }

  lemma IdIsBreakFree(fromUser: string, now: Utc, slug: string, n: nat)
    requires IsSlug(slug) && BreakFree(fromUser)
    ensures BreakFree(CandidateId(BaseId(fromUser, now, slug), n))
  {
    CompactStamp(now);
    PadIsDigits(now.year, 4);
    PadIsDigits(now.month, 2);
    PadIsDigits(now.day, 2);
    PadIsDigits(now.hour, 2);
    PadIsDigits(now.minute, 2);
    PadIsDigits(now.second, 2);
    assert BreakFree(Compact(Stamp(now)));
    assert BreakFree(BaseId(fromUser, now, slug));
    DecIsANumeral(n);
  }

  lemma PrioritiesReturn(p: string)
    requires p in ["low", "normal", "high"]
    ensures Returns(p) && BreakFree(p)
  {
    hide Lower;
  }

  predicate Survives(s: string)
  {
    BreakFree(s) && Returns(s)
  }

  predicate OptionSurvives(v: Option<string>)
  {
    v.Some? ==> Survives(v.value)
  }

  predicate DraftSurvives(d: Draft)
  {
    && Survives(d.fromUser) && OptionSurvives(d.fromEmail) && Survives(d.toUser)
    && BreakFree(EffectiveSubject(d)) && OptionSurvives(d.inReplyTo) && Survives(d.kind)
  }

  lemma HeaderSurvivesWithDraft(d: Draft, now: Utc, id: string)
    requires d.priority in ["low", "normal", "high"]
    requires Returns(id) && (BreakFree(d.fromUser) ==> BreakFree(id))
    ensures HeaderBreakFree(HeaderOf(d, now, id)) && HeaderReturns(HeaderOf(d, now, id)) <==> DraftSurvives(d)
  {
    EffectiveSubjectIsPlain(d);
    StampIsPlain(now);
    PrioritiesReturn(d.priority);
  }

  /**
   * What was written is read back, exactly when the caller's names and
   * references survive and the subject has no line break.
   */
  lemma WrittenReadsBackExactly(d: Draft, now: Utc, n: nat)
    requires Check(d) == None
    ensures var h := HeaderOf(d, now, CandidateId(BaseId(d.fromUser, now, SlugOf(d)), n));
      Read(Render(h, d.body)) == Parsed(Message(h, None, StoredBody(d.body))) <==> DraftSurvives(d)
  {
    SlugIsPlain(d);
    hide SlugOf;
    var id := CandidateId(BaseId(d.fromUser, now, SlugOf(d)), n);
    IdReturns(d.fromUser, now, SlugOf(d), n);
    if BreakFree(d.fromUser) {
      IdIsBreakFree(d.fromUser, now, SlugOf(d), n);
    }
    HeaderSurvivesWithDraft(d, now, id);
    RoundTripExactly(HeaderOf(d, now, id), d.body);
  }
}
