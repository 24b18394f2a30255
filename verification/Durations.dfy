/** Away-from-keyboard durations (`afk.py`): the parser, the printer and how they fit. */
module Durations {
  import opened Text

  datatype Problem = Empty | Invalid | NotPositive | TooLong
  datatype Parsed = Ok(seconds: nat) | Error(problem: Problem)

  /** The largest number of whole seconds a `timedelta` holds. */
  const MAX_SECONDS := 86400 * 1000000000 - 1

  predicate IsUnit(c: char)
  {
    c in {'s', 'm', 'h', 'd', 'w'}
  }

  /** The seconds in `count` of a unit. */
  function Worth(count: nat, unit: char): nat
    requires IsUnit(unit)
  {
    match unit
    case 's' => count
    case 'm' => 60 * count
    case 'h' => 3600 * count
    case 'd' => 86400 * count
    case _ => 604800 * count
  }

  /** Length of the run of digits at the start of `s`. */
  function DigitRun(s: string): (n: nat)
    ensures n <= |s|
  {
    if s == "" || !IsDigit(s[0]) then 0 else DigitRun(s[1..]) + 1
  }

  lemma {:induction false} DigitRunIsDigits(s: string)
    ensures AllDigits(s[..DigitRun(s)])
  {
    if s != "" && IsDigit(s[0]) {
      DigitRunIsDigits(s[1..]);
      assert s[..DigitRun(s)] == [s[0]] + s[1..][..DigitRun(s[1..])];
    }
  }

  /** The first chunk: its seconds, and the text after it. */
  datatype First = NoChunk | First(worth: nat, rest: string)

  function FirstChunk(s: string): (f: First)
    ensures f.First? ==> |f.rest| < |s|
  {
    var n := DigitRun(s);
    DigitRunIsDigits(s);
    if 0 < n < |s| && IsUnit(s[n]) then First(Worth(Val(s[..n]), s[n]), s[n + 1..]) else NoChunk
  }

  function Plus(x: nat, y: Option<nat>): Option<nat>
  {
    if y.Some? then Some(x + y.value) else None
  }

  /** The seconds of a sequence of number-unit chunks; none if it is not one. */
  function Chunks(s: string): Option<nat>
    decreases |s|
  {
    if s == "" then Some(0)
    else match FirstChunk(s)
      case NoChunk => None
      case First(worth, rest) => Plus(worth, Chunks(rest))
  }

  function Meaning(text: string): Parsed
  {
    var s := Lower(Strip(text));
    if s == "" then Error(Empty)
    else match Chunks(s)
      case None => Error(Invalid)
      case Some(total) =>
        if total == 0 then Error(NotPositive) else if total > MAX_SECONDS then Error(TooLong) else Ok(total)
  }

  /** `parse_duration` */
  method ParseDuration(text: string) returns (r: Parsed)
    ensures r == Meaning(text)
  {
    hide FirstChunk, DigitRun, Val;
    var stripped := Lower(Strip(text));
    if stripped == "" {
      return Error(Empty);
    }
    var total: nat, idx: nat := 0, 0;
    assert stripped[0..] == stripped;
    while idx < |stripped|
      invariant idx <= |stripped|
      invariant Chunks(stripped) == Plus(total, Chunks(stripped[idx..]))
    {
      var rest := stripped[idx..];
      var n := DigitRun(rest);
      ChunkAt(rest);
      if n == 0 || n == |rest| || !IsUnit(rest[n]) {
        return Error(Invalid);
      }
      var worth := Worth(Val(rest[..n]), rest[n]);
      assert rest[n + 1..] == stripped[idx + n + 1..];
      PlusTwice(total, worth, Chunks(rest[n + 1..]));
      total := total + worth;
      idx := idx + n + 1;
    }
    assert stripped[idx..] == "";
    if total <= 0 {
      return Error(NotPositive);
    }
    return if total > MAX_SECONDS then Error(TooLong) else Ok(total);
  }

  lemma ChunkAt(s: string)
    requires s != ""
    ensures var n := DigitRun(s);
      AllDigits(s[..n])
      && Chunks(s) == if 0 < n < |s| && IsUnit(s[n]) then Plus(Worth(Val(s[..n]), s[n]), Chunks(s[n + 1..])) else None
  {
    hide DigitRun, Val;
    DigitRunIsDigits(s);
  }

  // ----- the printer ---------------------------------------------------------

  function Chunk(count: nat, unit: char): seq<string>
  {
    if count == 0 then [] else [Dec(count) + [unit]]
  }

  function Parts(n: nat): seq<string>
  {
    Chunk(n / 604800, 'w') + Chunk(n % 604800 / 86400, 'd') + Chunk(n % 86400 / 3600, 'h')
    + Chunk(n % 3600 / 60, 'm') + Chunk(n % 60, 's')
  }

  function JoinWithSpaces(parts: seq<string>): string
  {
    if parts == [] then "" else if |parts| == 1 then parts[0] else parts[0] + " " + JoinWithSpaces(parts[1..])
  }

  function Concat(parts: seq<string>): string
  {
    if parts == [] then "" else parts[0] + Concat(parts[1..])
  }

  function Printed(n: int): string
  {
    if n <= 0 then "0s" else JoinWithSpaces(Parts(n))
  }

  /** `format_remaining` on the whole seconds of its argument. */
  method FormatRemaining(seconds: int) returns (text: string)
    ensures text == Printed(seconds)
  {
    var total := seconds;
    if total <= 0 {
      return "0s";
    }
    var parts: seq<string> := [];
    var units := [('w', 604800), ('d', 86400), ('h', 3600), ('m', 60)];
    ghost var done := [Chunk(seconds / 604800, 'w'), Chunk(seconds % 604800 / 86400, 'd'),
                       Chunk(seconds % 86400 / 3600, 'h'), Chunk(seconds % 3600 / 60, 'm')];
    ghost var left := [seconds, seconds % 604800, seconds % 86400, seconds % 3600, seconds % 60];
    Remainders(seconds);
    for i := 0 to 4
      invariant total == left[i] && total >= 0
      invariant parts == (if i > 0 then done[0] else []) + (if i > 1 then done[1] else [])
                         + (if i > 2 then done[2] else []) + (if i > 3 then done[3] else [])
    {
      var count := total / units[i].1;
      total := total % units[i].1;
      if count != 0 {
        parts := parts + [Dec(count) + [units[i].0]];
      }
    }
    if total != 0 {
      parts := parts + [Dec(total) + ['s']];
    }
    assert parts == Parts(seconds);
    PartsMeanTheNumber(seconds);
    assert parts != [];
    text := JoinWithSpaces(parts);
  }

  lemma Weeks(n: nat, q: nat, r: nat)
    requires n == 604800 * q + r && r < 604800
    ensures n / 604800 == q && n % 604800 == r
  {
  }

  lemma Days(n: nat, q: nat, r: nat)
    requires n == 86400 * q + r && r < 86400
    ensures n / 86400 == q && n % 86400 == r
  {
  }

  lemma Hours(n: nat, q: nat, r: nat)
    requires n == 3600 * q + r && r < 3600
    ensures n / 3600 == q && n % 3600 == r
  {
  }

  lemma Minutes(n: nat, q: nat, r: nat)
    requires n == 60 * q + r && r < 60
    ensures n / 60 == q && n % 60 == r
  {
  }

  lemma Remainders(n: nat)
    ensures n % 604800 % 86400 == n % 86400
    ensures n % 86400 % 3600 == n % 3600
    ensures n % 3600 % 60 == n % 60
  {
    var w, d, h := n % 604800, n % 86400, n % 3600;
    Days(n, 7 * (n / 604800) + w / 86400, w % 86400);
    Hours(n, 24 * (n / 86400) + d / 3600, d % 3600);
    Minutes(n, 60 * (n / 3600) + h / 60, h % 60);
  }

  // ----- how they fit -------------------------------------------------------------

  lemma {:induction false} DigitRunOfPrefix(a: string, b: string)
    requires DigitRun(a) < |a|
    ensures DigitRun(a + b) == DigitRun(a)
  {
    if a != "" && IsDigit(a[0]) {
      assert (a + b)[1..] == a[1..] + b;
      DigitRunOfPrefix(a[1..], b);
    }
  }

  lemma FirstChunkStays(a: string, b: string)
    requires FirstChunk(a).First?
    ensures FirstChunk(a + b) == First(FirstChunk(a).worth, FirstChunk(a).rest + b)
  {
    var n := DigitRun(a);
    DigitRunOfPrefix(a, b);
    assert (a + b)[..n] == a[..n] && (a + b)[n] == a[n] && (a + b)[n + 1..] == a[n + 1..] + b;
  }

  lemma ChunksFrom(s: string, worth: nat, rest: string)
    requires FirstChunk(s) == First(worth, rest)
    ensures Chunks(s) == Plus(worth, Chunks(rest))
  {
  }

  lemma PlusTwice(x: nat, y: nat, z: Option<nat>)
    ensures Plus(x, Plus(y, z)) == Plus(x + y, z) && Plus(0, z) == z
  {
  }

  /** Parsing a concatenation of chunk sequences gives the sum; what follows a chunk sequence decides the rest. */
  lemma {:induction false} ChunksConcatenate(a: string, b: string)
    requires Chunks(a).Some?
    ensures Chunks(a + b) == Plus(Chunks(a).value, Chunks(b))
    decreases |a|
  {
    hide FirstChunk;
    if a == "" {
      assert a + b == b;
      PlusTwice(0, 0, Chunks(b));
    } else {
      var f := FirstChunk(a);
      ChunksFrom(a, f.worth, f.rest);
      FirstChunkStays(a, b);
      ChunksFrom(a + b, f.worth, f.rest + b);
      ChunksConcatenate(f.rest, b);
      PlusTwice(f.worth, Chunks(f.rest).value, Chunks(b));
    }
  }

  lemma {:induction false} DigitRunOfNumeral(digits: string, rest: string)
    requires AllDigits(digits) && (rest == "" || !IsDigit(rest[0]))
    ensures DigitRun(digits + rest) == |digits|
  {
    if digits == "" {
      assert digits + rest == rest;
    } else {
      assert (digits + rest)[1..] == digits[1..] + rest;
      DigitRunOfNumeral(digits[1..], rest);
    }
  }

  lemma OneChunk(count: nat, unit: char)
    requires IsUnit(unit)
    ensures Chunks(Dec(count) + [unit]) == Some(Worth(count, unit))
  {
    var s := Dec(count) + [unit];
    DecIsANumeral(count);
    DigitRunOfNumeral(Dec(count), [unit]);
    ChunkAt(s);
    hide FirstChunk;
    assert s[..|Dec(count)|] == Dec(count) && s[|Dec(count)| + 1..] == "";
  }

  lemma {:induction false} ConcatAppend(a: seq<string>, b: seq<string>)
    ensures Concat(a + b) == Concat(a) + Concat(b)
  {
    if a == [] {
      assert a + b == b;
    } else {
      assert (a + b)[1..] == a[1..] + b;
      ConcatAppend(a[1..], b);
    }
  }

  lemma ChunkMeans(count: nat, unit: char)
    requires IsUnit(unit)
    ensures Mean(Chunk(count, unit), Worth(count, unit))
  {
    if count != 0 {
      OneChunk(count, unit);
      assert Concat(Chunk(count, unit)) == Dec(count) + [unit] + Concat([]);
      assert Dec(count) + [unit] + "" == Dec(count) + [unit];
    }
  }

  lemma SumOfTwo(a: string, b: string, x: nat, y: nat)
    requires Chunks(a) == Some(x) && Chunks(b) == Some(y)
    ensures Chunks(a + b) == Some(x + y)
  {
    hide FirstChunk, Chunks;
    ChunksConcatenate(a, b);
  }

  /** The parts mean `sum` seconds when written without spaces. */
  predicate Mean(parts: seq<string>, sum: nat)
  {
    Chunks(Concat(parts)) == Some(sum)
  }

  lemma Join(a: seq<string>, b: seq<string>, x: nat, y: nat)
    requires Mean(a, x) && Mean(b, y)
    ensures Mean(a + b, x + y)
  {
    ConcatAppend(a, b);
    SumOfTwo(Concat(a), Concat(b), x, y);
  }

  lemma JoinThree(a: seq<string>, b: seq<string>, c: seq<string>, x: nat, y: nat, z: nat)
    requires Mean(a, x) && Mean(b, y) && Mean(c, z)
    ensures Mean(a + b + c, x + y + z)
  {
    Join(a, b, x, y);
    Join(a + b, c, x + y, z);
  }

  lemma JoinFive(a: seq<string>, b: seq<string>, c: seq<string>, d: seq<string>, e: seq<string>,
      v: nat, w: nat, x: nat, y: nat, z: nat)
    requires Mean(a, v) && Mean(b, w) && Mean(c, x) && Mean(d, y) && Mean(e, z)
    ensures Mean(a + b + c + d + e, v + w + x + y + z)
  {
    JoinThree(a, b, c, v, w, x);
    JoinThree(a + b + c, d, e, v + w + x, y, z);
  }

  lemma FiveChunks(w: nat, d: nat, h: nat, m: nat, s: nat)
    ensures Mean(Chunk(w, 'w') + Chunk(d, 'd') + Chunk(h, 'h') + Chunk(m, 'm') + Chunk(s, 's'),
                 604800 * w + 86400 * d + 3600 * h + 60 * m + s)
  {
    hide Mean, Chunk;
    ChunkMeans(w, 'w');
    ChunkMeans(d, 'd');
    ChunkMeans(h, 'h');
    ChunkMeans(m, 'm');
    ChunkMeans(s, 's');
    JoinFive(Chunk(w, 'w'), Chunk(d, 'd'), Chunk(h, 'h'), Chunk(m, 'm'), Chunk(s, 's'),
      604800 * w, 86400 * d, 3600 * h, 60 * m, s);
  }

  lemma MixedRadix(n: nat)
    ensures n == 604800 * (n / 604800) + 86400 * (n % 604800 / 86400) + 3600 * (n % 86400 / 3600)
                 + 60 * (n % 3600 / 60) + n % 60
  {
    Remainders(n);
  }

  lemma PartsMeanTheNumber(n: nat)
    ensures Mean(Parts(n), n)
    ensures n > 0 ==> Parts(n) != []
  {
    MixedRadix(n);
    FiveChunks(n / 604800, n % 604800 / 86400, n % 86400 / 3600, n % 3600 / 60, n % 60);
    assert Concat([]) == "" && Chunks("") == Some(0);
  }

  // ----- spaces, case ----------------------------------------------------------------

  function RemoveSpaces(s: string): string
  {
    if s == "" then "" else (if s[0] == ' ' then "" else [s[0]]) + RemoveSpaces(s[1..])
  }

  predicate ChunkChars(s: string)
  {
    forall i :: 0 <= i < |s| ==> IsDigit(s[i]) || IsUnit(s[i])
  }

  lemma {:induction false} RemoveSpacesAppends(a: string, b: string)
    ensures RemoveSpaces(a + b) == RemoveSpaces(a) + RemoveSpaces(b)
  {
    if a == "" {
      assert a + b == b;
    } else {
      assert (a + b)[1..] == a[1..] + b;
      RemoveSpacesAppends(a[1..], b);
    }
  }

  lemma {:induction false} NothingToRemove(s: string)
    requires ChunkChars(s)
    ensures RemoveSpaces(s) == s && Lower(s) == s
  {
    if s != "" {
      NothingToRemove(s[1..]);
      assert IsDigit(s[0]) || IsUnit(s[0]);
    }
  }

  ghost predicate AllChunkChars(parts: seq<string>)
  {
    forall i :: 0 <= i < |parts| ==> ChunkChars(parts[i]) && parts[i] != ""
  }

  lemma ChunkIsClean(count: nat, unit: char)
    requires IsUnit(unit)
    ensures AllChunkChars(Chunk(count, unit))
  {
    DecIsANumeral(count);
  }

  lemma PartsAreChunkChars(n: nat)
    ensures AllChunkChars(Parts(n))
  {
    ChunkIsClean(n / 604800, 'w');
    ChunkIsClean(n % 604800 / 86400, 'd');
    ChunkIsClean(n % 86400 / 3600, 'h');
    ChunkIsClean(n % 3600 / 60, 'm');
    ChunkIsClean(n % 60, 's');
  }

  lemma ChunkCharsJoin(a: string, b: string)
    requires ChunkChars(a) && ChunkChars(b)
    ensures ChunkChars(a + b)
  {
  }

  lemma OneSpaceGoes()
    ensures RemoveSpaces(" ") == ""
  {
    assert " "[1..] == "";
  }

  lemma SpaceGoes(a: string, b: string)
    requires ChunkChars(a)
    ensures RemoveSpaces(a + " " + b) == a + RemoveSpaces(b)
  {
    hide ChunkChars, RemoveSpaces;
    RemoveSpacesAppends(a + " ", b);
    RemoveSpacesAppends(a, " ");
    NothingToRemove(a);
    OneSpaceGoes();
  }

  lemma {:induction false} RemovingSpacesConcatenates(parts: seq<string>)
    requires AllChunkChars(parts)
    ensures RemoveSpaces(JoinWithSpaces(parts)) == Concat(parts) && ChunkChars(Concat(parts))
  {
    if |parts| > 0 {
      hide ChunkChars, RemoveSpaces;
      RemovingSpacesConcatenates(parts[1..]);
      ChunkCharsJoin(parts[0], Concat(parts[1..]));
      if |parts| > 1 {
        SpaceGoes(parts[0], JoinWithSpaces(parts[1..]));
      } else {
        NothingToRemove(parts[0]);
        assert Concat(parts) == parts[0] + "" == parts[0];
      }
    }
  }

  lemma ChunkTextIsClean(s: string)
    requires ChunkChars(s)
    ensures Lower(Strip(s)) == s
  {
    assert Trimmed(s) by {
      if s != "" { assert IsDigit(s[0]) || IsUnit(s[0]); assert IsDigit(s[|s| - 1]) || IsUnit(s[|s| - 1]); }
    }
    StripTrims(s);
    NothingToRemove(s);
  }

  /** Parsing what the printer shows, spaces removed, gives back every positive number of seconds. */
  lemma PrintedTextParsesBack(n: nat)
    requires 0 < n <= MAX_SECONDS
    ensures Meaning(RemoveSpaces(Printed(n))) == Ok(n)
  {
    PartsAreChunkChars(n);
    RemovingSpacesConcatenates(Parts(n));
    PartsMeanTheNumber(n);
    ChunkTextIsClean(Concat(Parts(n)));
  }

  lemma SpaceStopsTheParser(a: string, b: string)
    requires Chunks(a).Some?
    ensures Chunks(a + " " + b) == None
  {
    var rest := " " + b;
    assert a + " " + b == a + rest;
    assert DigitRun(rest) == 0;
    ChunksConcatenate(a, rest);
  }

  lemma JoinedMeaning(parts: seq<string>, n: nat)
    requires AllChunkChars(parts) && parts != [] && 0 < n <= MAX_SECONDS
    requires Chunks(Concat(parts)) == Some(n) && Chunks(parts[0]).Some?
    ensures Meaning(JoinWithSpaces(parts)) == (if |parts| == 1 then Ok(n) else Error(Invalid))
  {
    JoinedIsLowerAndTrimmed(parts);
    JoinedTextIsClean(parts);
    if |parts| == 1 {
      assert Concat(parts) == parts[0] + Concat(parts[1..]) == parts[0];
    } else {
      SpaceStopsTheParser(parts[0], JoinWithSpaces(parts[1..]));
    }
  }

  /** With its spaces the printed text is accepted exactly when it has a single part. */
  lemma PrintedTextIsAcceptedExactly(n: nat)
    requires 0 < n <= MAX_SECONDS
    ensures Meaning(Printed(n)) == (if |Parts(n)| == 1 then Ok(n) else Error(Invalid))
  {
    PartsAreChunkChars(n);
    PartsMeanTheNumber(n);
    FirstPartParses(n);
    JoinedMeaning(Parts(n), n);
  }

  lemma FirstPartParses(n: nat)
    requires n > 0 && Parts(n) != []
    ensures Chunks(Parts(n)[0]).Some?
  {
    if n / 604800 != 0 { OneChunk(n / 604800, 'w'); }
    else if n % 604800 / 86400 != 0 { OneChunk(n % 604800 / 86400, 'd'); }
    else if n % 86400 / 3600 != 0 { OneChunk(n % 86400 / 3600, 'h'); }
    else if n % 3600 / 60 != 0 { OneChunk(n % 3600 / 60, 'm'); }
    else { OneChunk(n % 60, 's'); }
  }

  lemma {:induction false} LowerAppends(a: string, b: string)
    ensures Lower(a + b) == Lower(a) + Lower(b)
  {
    if a == "" {
      assert a + b == b;
    } else {
      assert (a + b)[1..] == a[1..] + b;
      LowerAppends(a[1..], b);
    }
  }

  lemma ChunkCharsAreNotSpace(s: string)
    requires ChunkChars(s) && s != ""
    ensures !IsSpace(s[0]) && !IsSpace(s[|s| - 1])
  {
    assert IsDigit(s[0]) || IsUnit(s[0]);
    assert IsDigit(s[|s| - 1]) || IsUnit(s[|s| - 1]);
  }

  lemma SpacedIsLower(a: string, b: string)
    requires Lower(a) == a && Lower(b) == b
    ensures Lower(a + " " + b) == a + " " + b
  {
    LowerAppends(a + " ", b);
    LowerAppends(a, " ");
    assert Lower(" ") == " ";
  }

  lemma {:induction false} JoinedIsLowerAndTrimmed(parts: seq<string>)
    requires AllChunkChars(parts) && parts != []
    ensures var t := JoinWithSpaces(parts); Lower(t) == t && t != "" && Trimmed(t)
  {
    NothingToRemove(parts[0]);
    ChunkCharsAreNotSpace(parts[0]);
    if |parts| > 1 {
      JoinedIsLowerAndTrimmed(parts[1..]);
      SpacedIsLower(parts[0], JoinWithSpaces(parts[1..]));
    }
  }

  lemma JoinedTextIsClean(parts: seq<string>)
    requires AllChunkChars(parts) && parts != []
    ensures Lower(Strip(JoinWithSpaces(parts))) == JoinWithSpaces(parts)
  {
    JoinedIsLowerAndTrimmed(parts);
    StripTrims(JoinWithSpaces(parts));
  }

  /** The printed counts are the only bounded weeks, days, hours, minutes and seconds that make the number. */
  lemma CountsAreUnique(n: nat, w: nat, d: nat, h: nat, m: nat, s: nat)
    requires d < 7 && h < 24 && m < 60 && s < 60
    requires n == 604800 * w + 86400 * d + 3600 * h + 60 * m + s
    ensures Parts(n) == Chunk(w, 'w') + Chunk(d, 'd') + Chunk(h, 'h') + Chunk(m, 'm') + Chunk(s, 's')
  {
    var r := 86400 * d + 3600 * h + 60 * m + s;
    Weeks(n, w, r);
    Days(r, d, 3600 * h + 60 * m + s);
    Days(n, 7 * w + d, 3600 * h + 60 * m + s);
    Hours(3600 * h + 60 * m + s, h, 60 * m + s);
    Hours(n, 168 * w + 24 * d + h, 60 * m + s);
    Minutes(60 * m + s, m, s);
    Minutes(n, 10080 * w + 1440 * d + 60 * h + m, s);
  }

  /** Two accepted durations written one after the other, without space around them, mean their sum. */
  lemma DurationsAdd(a: string, b: string)
    requires Meaning(a).Ok? && Meaning(b).Ok? && Trimmed(a) && Trimmed(b)
    ensures var sum := Meaning(a).seconds + Meaning(b).seconds;
            Meaning(a + b) == if sum > MAX_SECONDS then Error(TooLong) else Ok(sum)
  {
    StripTrims(a);
    StripTrims(b);
    StripTrims(a + b);
    assert a != "" && b != "" by {
      assert Lower("") == "" && Strip("") == "";
    }
    assert (a + b)[0] == a[0] && (a + b)[|a + b| - 1] == b[|b| - 1];
    LowerAppends(a, b);
    ChunksConcatenate(Lower(a), Lower(b));
  }

  // ----- fixed points --------------------------------------------------------

  /** One number with one unit, in any case and with space around it. */
  lemma NumberWithUnit(text: string, count: string, unit: char)
    requires count != "" && AllDigits(count) && unit in {'s', 'm', 'h', 'd', 'w'}
    requires Lower(Strip(text)) == count + [unit]
    ensures var one := match unit case 's' => 1 case 'm' => 60 case 'h' => 3600 case 'd' => 86400 case _ => 604800;
      var seconds := one * Val(count);
      Meaning(text) == if seconds == 0 then Error(NotPositive)
                       else if seconds >= 86400000000000 then Error(TooLong) else Ok(seconds)
  {
    var s := count + [unit];
    DigitRunThen(count, [unit]);
    assert s[..|count|] == count && s[|count| + 1..] == "" && s[|count|] == unit;
    hide Lower, Strip, Val, DigitRun;
    assert FirstChunk(s) == First(Worth(Val(count), unit), "");
    assert Chunks("") == Some(0);
  }

  lemma {:induction false} DigitRunThen(digits: string, x: string)
    requires AllDigits(digits) && (x != "" ==> !IsDigit(x[0]))
    ensures DigitRun(digits + x) == |digits|
  {
    var s := digits + x;
    if digits == "" {
      assert s == x;
    } else {
      assert s[0] == digits[0] && s[1..] == digits[1..] + x;
      DigitRunThen(digits[1..], x);
    }
  }

  /** A number without a unit, a unit without a number and an unknown unit are refused. */
  lemma NoChunkIsInvalid(text: string)
    requires var s := Lower(Strip(text)); var n := DigitRun(s);
             s != "" && (n == 0 || n == |s| || s[n] !in {'s', 'm', 'h', 'd', 'w'})
    ensures Meaning(text) == Error(Invalid)
  {
    hide Lower, Strip, Val, DigitRun;
  }

  /** Only blank text counts as empty, and a positive sum within the limit is the only thing accepted. */
  lemma OutcomesExactly(text: string)
    ensures Meaning(text) == Error(Empty) <==> forall i :: 0 <= i < |text| ==> IsSpace(text[i])
    ensures Meaning(text).Ok? ==> 0 < Meaning(text).seconds < 86400000000000
  {
    BlankExactly(text);
    assert Lower("") == "";
    hide Strip, Lower, Chunks;
  }

  /** Nothing left, or less, prints as no seconds. */
  lemma NothingRemaining(n: int)
    requires n <= 0
    ensures Printed(n) == "0s"
  {
  }
}
