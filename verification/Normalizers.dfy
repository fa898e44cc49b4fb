/** The text and date normalizers every imported cell goes through. */
module Normalizers {
  import opened Basics
  import opened Text

  // ---------- whitespace ----------

  /** What the loop appends for the rest of a text, given what it appended last. */
  function Appended(s: string, prevSpace: bool): string {
    if s == "" then ""
    else if !IsSpace(s[0]) then [s[0]] + Appended(s[1..], false)
    else (if prevSpace then "" else " ") + Appended(s[1..], true)
  }

  function DropBlanks(s: string): string {
    if s != "" && s[|s| - 1] == ' ' then DropBlanks(s[..|s| - 1]) else s
  }

  function Joined(words: seq<string>): string {
    if words == [] then ""
    else if |words| == 1 then words[0]
    else words[0] + " " + Joined(words[1..])
  }

  /** `collapse_ws`. */
  method CollapseWs(s: string) returns (out: string)
    ensures out == Joined(Words(s))
  {
    hide Words, Joined, DropBlanks, Appended;
    out := "";
    var prevSpace := true;
    var next := 0;
    assert s[0..] == s && out + Appended(s, true) == Appended(s, true);
    while next < |s|
      invariant 0 <= next <= |s|
      invariant out + Appended(s[next..], prevSpace) == Appended(s, true)
    {
      AppendedStep(s, next, prevSpace);
      ghost var more := Appended(s[next + 1..], IsSpace(s[next]));
      if IsSpace(s[next]) {
        if !prevSpace {
          Associative(out, " ", more);
          out := out + " ";
          prevSpace := true;
        }
      } else {
        Associative(out, [s[next]], more);
        out := out + [s[next]];
        prevSpace := false;
      }
      next := next + 1;
    }
    assert s[next..] == "";
    AppendedNothing(prevSpace);
    assert out + "" == out;
    ghost var all := out;
    while out != "" && out[|out| - 1] == ' '
      invariant DropBlanks(out) == DropBlanks(all)
      decreases |out|
    {
      BlankDropped(out);
      out := out[..|out| - 1];
    }
    BlankDropped(out);
    CollapsedIsJoined(s);
  }

  lemma AppendedStep(s: string, next: nat, prevSpace: bool)
    requires next < |s|
    ensures Appended(s[next..], prevSpace) ==
      if !IsSpace(s[next]) then [s[next]] + Appended(s[next + 1..], false)
      else if prevSpace then Appended(s[next + 1..], true)
      else " " + Appended(s[next + 1..], true)
  {
    var rest := s[next..];
    assert s[next + 1..] == rest[1..];
    assert "" + Appended(rest[1..], true) == Appended(rest[1..], true);
  }

  lemma AppendedNothing(prevSpace: bool)
    ensures Appended("", prevSpace) == ""
  {
  }

  lemma BlankDropped(s: string)
    ensures DropBlanks(s) == if s != "" && s[|s| - 1] == ' ' then DropBlanks(s[..|s| - 1]) else s
  {
  }

  /** Words as `Words` yields them: not empty, without whitespace. */
  predicate AreWords(words: seq<string>) {
    forall w <- words :: w != "" && NoSpace(w)
  }

  lemma {:induction false} WordsAreWords(s: string)
    ensures AreWords(Words(s))
    decreases |s|
  {
    if s != "" {
      if IsSpace(s[0]) {
        WordsAreWords(s[1..]);
      } else {
        WordsAreWords(s[WordLength(s)..]);
      }
    }
  }

  lemma {:induction false} AppendedWord(w: string, rest: string)
    requires NoSpace(w)
    ensures Appended(w + rest, false) == w + Appended(rest, false)
  {
    if w == "" {
      assert w + rest == rest;
    } else {
      assert (w + rest)[1..] == w[1..] + rest;
      AppendedWord(w[1..], rest);
    }
  }

  /** What the loop appends: the words with single blanks, and perhaps one blank more. */
  lemma {:induction false} AppendedIsJoined(s: string) returns (blank: string)
    ensures Appended(s, true) == Joined(Words(s)) + blank
    ensures blank == "" || (blank == " " && Words(s) != [])
    decreases |s|
  {
    if s == "" {
      blank := "";
    } else if IsSpace(s[0]) {
      blank := AppendedIsJoined(s[1..]);
    } else {
      var w, rest := s[..WordLength(s)], s[WordLength(s)..];
      WordTaken(s);
      hide Appended, Words;
      if rest == "" {
        blank := "";
        NothingAppended();
      } else {
        SpaceFirst(rest);
        blank := AppendedIsJoined(rest);
        WordThenRest(w, Words(rest), blank);
        if Words(rest) == [] {
          blank := " ";
        }
      }
    }
  }

  lemma NothingAppended()
    ensures Appended("", false) == "" && Words("") == []
  {
  }

  lemma WordThenRest(w: string, words: seq<string>, blank: string)
    requires blank == "" || (blank == " " && words != [])
    ensures words == [] ==> w + (" " + (Joined(words) + blank)) == Joined([w] + words) + " "
    ensures words != [] ==> w + (" " + (Joined(words) + blank)) == Joined([w] + words) + blank
  {
    assert ([w] + words)[1..] == words;
  }

  /** A text that starts with a word: the loop copies it, and `Words` splits it off. */
  lemma WordTaken(s: string)
    requires s != "" && !IsSpace(s[0])
    ensures var w, rest := s[..WordLength(s)], s[WordLength(s)..];
      && s == w + rest && w != ""
      && Appended(s, true) == w + Appended(rest, false)
      && Words(s) == [w] + Words(rest)
      && (rest != "" ==> IsSpace(rest[0]))
  {
    var w, rest := s[..WordLength(s)], s[WordLength(s)..];
    AppendedWord(w, rest);
    assert s == w + rest;
    assert Appended(s, true) == Appended(s, false);
  }

  lemma SpaceFirst(rest: string)
    requires rest != "" && IsSpace(rest[0])
    ensures Appended(rest, false) == " " + Appended(rest, true) && Words(rest) == Words(rest[1..])
  {
  }

  lemma {:induction false} JoinedEnds(words: seq<string>)
    requires AreWords(words) && words != []
    ensures Joined(words) != "" && Joined(words)[|Joined(words)| - 1] != ' '
  {
    assert words[0] in words;
    if |words| > 1 {
      assert forall w <- words[1..] :: w in words;
      JoinedEnds(words[1..]);
    } else {
      assert !IsSpace(words[0][|words[0]| - 1]);
    }
  }

  lemma CollapsedIsJoined(s: string)
    ensures DropBlanks(Appended(s, true)) == Joined(Words(s))
  {
    hide Appended, Words;
    var blank := AppendedIsJoined(s);
    WordsAreWords(s);
    if Words(s) != [] {
      JoinedEnds(Words(s));
      assert (Joined(Words(s)) + " ")[..|Joined(Words(s))|] == Joined(Words(s));
    }
    assert Joined(Words(s)) + "" == Joined(Words(s));
  }

  /** Collapsing leaves collapsed text alone: its words are the words it was joined from. */
  lemma {:induction false} WordsOfJoined(words: seq<string>)
    requires AreWords(words)
    ensures Words(Joined(words)) == words
  {
    if words != [] {
      assert words[0] in words && forall w <- words[1..] :: w in words;
      if |words| == 1 {
        FirstWord(words[0], "");
        assert words[0] + "" == words[0];
      } else {
        var rest := " " + Joined(words[1..]);
        assert Joined(words) == words[0] + rest;
        FirstWord(words[0], rest);
        assert rest[1..] == Joined(words[1..]);
        WordsOfJoined(words[1..]);
      }
    }
  }

  lemma CollapseIsIdempotent(s: string)
    ensures Joined(Words(Joined(Words(s)))) == Joined(Words(s))
  {
    WordsAreWords(s);
    WordsOfJoined(Words(s));
  }

  // ---------- dates ----------

  predicate IsDateSeparator(c: char) {
    c == '.' || c == '/' || c == '-'
  }

  predicate NoSeparator(s: string) {
    forall i :: 0 <= i < |s| ==> !IsDateSeparator(s[i])
  }

  /** `split(['.', '/', '-'])`. */
  function SplitDate(s: string): (parts: seq<string>)
    ensures parts != []
  {
    if s == "" then [""]
    else
      var rest := SplitDate(s[1..]);
      if IsDateSeparator(s[0]) then [""] + rest else [[s[0]] + rest[0]] + rest[1..]
  }

  const U32_LIMIT := 0x1_0000_0000

  function ParseU32(s: string): Option<int> {
    match ParseU64(s)
    case Some(n) => if n < U32_LIMIT then Some(n) else None
    case None => None
  }

  function Zeros(n: nat): string {
    seq(n, _ => '0')
  }

  /** `{n:0width}`. */
  function Padded(n: nat, width: nat): string {
    var digits := ToDecimal(n);
    if |digits| >= width then digits else Zeros(width - |digits|) + digits
  }

  function Iso(y: nat, m: nat, d: nat): string {
    Padded(y, 4) + "-" + Padded(m, 2) + "-" + Padded(d, 2)
  }

  datatype YearMonthDay = YearMonthDay(year: nat, month: nat, day: nat)

  function AsDate(year: string, month: string, day: string): Option<YearMonthDay> {
    if |year| == 4 && |month| <= 2 && |day| <= 2 &&
       ParseU32(year).Some? && ParseU32(month).Some? && ParseU32(day).Some? &&
       1 <= ParseU32(month).value <= 12 && 1 <= ParseU32(day).value <= 31
    then Some(YearMonthDay(ParseU32(year).value, ParseU32(month).value, ParseU32(day).value))
    else None
  }

  /** `normalize_date`. */
  function NormalizeDate(value: string): string {
    var parts := SplitDate(value);
    if |parts| != 3 then value
    else match AsDate(parts[2], parts[1], parts[0])
      case Some(d) => Iso(d.year, d.month, d.day)
      case None => match AsDate(parts[0], parts[1], parts[2])
        case Some(d) => Iso(d.year, d.month, d.day)
        case None => value
  }

  lemma {:induction false} SplitPart(s: string, c: char, rest: string)
    requires NoSeparator(s) && IsDateSeparator(c)
    ensures SplitDate(s + ([c] + rest)) == [s] + SplitDate(rest)
  {
    if s == "" {
      assert s + ([c] + rest) == [c] + rest && ([c] + rest)[1..] == rest;
    } else {
      var all := s + ([c] + rest);
      assert all[1..] == s[1..] + ([c] + rest);
      SplitPart(s[1..], c, rest);
      assert [s[0]] + s[1..] == s;
    }
  }

  lemma {:induction false} SplitLast(s: string)
    requires NoSeparator(s)
    ensures SplitDate(s) == [s]
  {
    if s != "" {
      SplitLast(s[1..]);
      assert [s[0]] + s[1..] == s;
    }
  }

  /** A date written with any separators is split into its three parts. */
  lemma SplitThree(a: string, b: string, c: string, x: char, y: char)
    requires NoSeparator(a) && NoSeparator(b) && NoSeparator(c) && IsDateSeparator(x) && IsDateSeparator(y)
    ensures SplitDate(a + ([x] + (b + ([y] + c)))) == [a, b, c]
  {
    hide SplitDate;
    SplitPart(a, x, b + ([y] + c));
    SplitPart(b, y, c);
    SplitLast(c);
  }

  function Power10(k: nat): nat {
    if k == 0 then 1 else 10 * Power10(k - 1)
  }

  lemma {:induction false} DecimalFits(n: nat, k: nat)
    requires n < Power10(k) && 0 < k
    ensures |ToDecimal(n)| <= k
  {
    if n >= 10 {
      DecimalFits(n / 10, k - 1);
    }
  }

  lemma {:induction false} ValueFits(s: string)
    requires AllDigits(s)
    ensures DigitsValue(s) < Power10(|s|)
  {
    if s != "" {
      ValueFits(s[..|s| - 1]);
    }
  }

  lemma {:induction false} LeadingZeros(n: nat, s: string)
    requires AllDigits(s)
    ensures AllDigits(Zeros(n) + s) && DigitsValue(Zeros(n) + s) == DigitsValue(s)
  {
    if s == "" {
      assert Zeros(n) + s == Zeros(n);
      ZerosAreZero(n);
    } else {
      var all := Zeros(n) + s;
      assert all[..|all| - 1] == Zeros(n) + s[..|s| - 1];
      LeadingZeros(n, s[..|s| - 1]);
    }
  }

  lemma {:induction false} ZerosAreZero(n: nat)
    ensures AllDigits(Zeros(n)) && DigitsValue(Zeros(n)) == 0
  {
    if n > 0 {
      assert Zeros(n)[..n - 1] == Zeros(n - 1);
      ZerosAreZero(n - 1);
    }
  }

  /** A padded number has exactly the width, and parses back. */
  lemma PaddedParses(n: nat, width: nat)
    requires n < Power10(width) && 0 < width && n < U32_LIMIT
    ensures |Padded(n, width)| == width && AllDigits(Padded(n, width)) && ParseU32(Padded(n, width)) == Some(n)
  {
    hide ToDecimal, DigitsValue, Power10, ParseU32, Zeros;
    var digits := ToDecimal(n);
    DecimalFits(n, width);
    DecimalValue(n);
    LeadingZeros(width - |digits|, digits);
    ZerosLength(width - |digits|);
    assert Zeros(0) + digits == digits by {
      ZerosLength(0);
    }
    DigitsParse(Padded(n, width), n);
  }

  lemma ZerosLength(n: nat)
    ensures |Zeros(n)| == n
  {
  }

  lemma DigitsParse(s: string, n: nat)
    requires s != "" && AllDigits(s) && DigitsValue(s) == n < U32_LIMIT
    ensures ParseU32(s) == Some(n)
  {
    hide DigitsValue;
  }

  lemma DigitsSplitNothing(s: string)
    requires AllDigits(s)
    ensures NoSeparator(s)
  {
  }

  lemma YearFits(s: string)
    requires |s| == 4 && ParseU32(s).Some?
    ensures ParseU32(s).value < Power10(4) == 10000
  {
    var body := if s[0] == '+' then s[1..] else s;
    ValueFits(body);
    assert Power10(1) == 10 && Power10(2) == 100 && Power10(3) == 1000 && Power10(4) == 10000;
  }

  /** An ISO date is normal: normalizing it again changes nothing. */
  lemma IsoIsNormal(y: nat, m: nat, d: nat)
    requires y < 10000 && 1 <= m <= 12 && 1 <= d <= 31
    ensures NormalizeDate(Iso(y, m, d)) == Iso(y, m, d)
  {
    hide ToDecimal, Padded, ParseU32, SplitDate;
    assert Power10(1) == 10 && Power10(2) == 100 && Power10(3) == 1000 && Power10(4) == 10000;
    hide Power10;
    PaddedParses(y, 4);
    PaddedParses(m, 2);
    PaddedParses(d, 2);
    var a, b, c := Padded(y, 4), Padded(m, 2), Padded(d, 2);
    DigitsSplitNothing(a);
    DigitsSplitNothing(b);
    DigitsSplitNothing(c);
    SplitThree(a, b, c, '-', '-');
    assert Iso(y, m, d) == a + (['-'] + (b + (['-'] + c)));
  }

  /** A number below a hundred is read back with or without a leading zero. */
  lemma ShortNumberParses(n: nat, padded: bool)
    requires n < 100
    ensures var text := if padded then Padded(n, 2) else ToDecimal(n);
      0 < |text| <= 2 && AllDigits(text) && ParseU32(text) == Some(n)
  {
    hide ToDecimal, DigitsValue, Power10, ParseU32, Zeros;
    assert Power10(2) == 100 by {
      HundredIs();
    }
    if padded {
      PaddedParses(n, 2);
    } else {
      DecimalFits(n, 2);
      DecimalValue(n);
      DigitsParse(ToDecimal(n), n);
    }
  }

  lemma HundredIs()
    ensures Power10(2) == 100 && Power10(4) == 10000
  {
    assert Power10(1) == 10 && Power10(3) == 1000;
  }

  /** A four-digit year with any day and month, with or without leading zeros, in either order
      and with any separators, normalizes to its ISO date when the month is one of twelve and the
      day one of thirty-one, and otherwise stays as it is written. */
  lemma DatesNormalizeExactly(y: nat, m: nat, d: nat, paddedMonth: bool, paddedDay: bool, x: char, z: char)
    requires y < 10000 && m < 100 && d < 100 && IsDateSeparator(x) && IsDateSeparator(z)
    ensures var year := Padded(y, 4);
      var month := if paddedMonth then Padded(m, 2) else ToDecimal(m);
      var day := if paddedDay then Padded(d, 2) else ToDecimal(d);
      var dayFirst, yearFirst := day + ([x] + (month + ([z] + year))), year + ([x] + (month + ([z] + day)));
      if 1 <= m <= 12 && 1 <= d <= 31
      then NormalizeDate(dayFirst) == NormalizeDate(yearFirst) == Iso(y, m, d)
      else NormalizeDate(dayFirst) == dayFirst && NormalizeDate(yearFirst) == yearFirst
  {
    hide ToDecimal, Padded, ParseU32, SplitDate, Iso, Power10;
    var year := Padded(y, 4);
    var month := if paddedMonth then Padded(m, 2) else ToDecimal(m);
    var day := if paddedDay then Padded(d, 2) else ToDecimal(d);
    HundredIs();
    PaddedParses(y, 4);
    ShortNumberParses(m, paddedMonth);
    ShortNumberParses(d, paddedDay);
    DigitsSplitNothing(year);
    DigitsSplitNothing(month);
    DigitsSplitNothing(day);
    SplitThree(day, month, year, x, z);
    SplitThree(year, month, day, x, z);
  }

  /** Normalizing a date twice is normalizing it once. */
  lemma NormalizeDateIsIdempotent(value: string)
    ensures NormalizeDate(NormalizeDate(value)) == NormalizeDate(value)
  {
    hide ParseU32, SplitDate, Iso;
    var parts := SplitDate(value);
    if |parts| == 3 {
      var dayFirst, yearFirst := AsDate(parts[2], parts[1], parts[0]), AsDate(parts[0], parts[1], parts[2]);
      if dayFirst.Some? {
        YearFits(parts[2]);
        IsoIsNormal(dayFirst.value.year, dayFirst.value.month, dayFirst.value.day);
      } else if yearFirst.Some? {
        YearFits(parts[0]);
        IsoIsNormal(yearFirst.value.year, yearFirst.value.month, yearFirst.value.day);
      }
    }
  }

  /** A day-first and a year-first spelling of one date normalize to the same ISO date. */
  lemma SpellingsAgree(year: string, month: string, day: string, x: char, y: char)
    requires NoSeparator(year) && NoSeparator(month) && NoSeparator(day) && IsDateSeparator(x) && IsDateSeparator(y)
    requires AsDate(year, month, day).Some?
    ensures var d := AsDate(year, month, day).value;
      && NormalizeDate(day + ([x] + (month + ([y] + year)))) == Iso(d.year, d.month, d.day)
      && NormalizeDate(year + ([x] + (month + ([y] + day)))) == Iso(d.year, d.month, d.day)
  {
    hide ParseU32, SplitDate, Iso;
    SplitThree(day, month, year, x, y);
    SplitThree(year, month, day, x, y);
  }
}
