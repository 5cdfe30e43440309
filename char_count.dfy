/**
 * Character histograms of a fixed text: the alphabet and digit tallies
 * written to a text report, and the alphanumeric tally written to a
 * spreadsheet. Characters are ASCII: `isalpha`, `isdigit` and `isalnum`
 * are the ASCII letter and digit classes.
 */
module CharCount {
  import opened Wrappers
  import opened Text
  import opened Ordering

  // ---------------------------------------------------------------------
  // Specification: occurrences and the dictionaries they fill
  // ---------------------------------------------------------------------

  /** How many times `c` occurs in `s`. */
  function Occurrences(s: string, c: char): (n: nat)
    ensures n <= |s|
    ensures n > 0 <==> c in s
  {
    if s == [] then 0
    else
      var init := s[..|s| - 1];
      assert s == init + [s[|s| - 1]];
      Occurrences(init, c) + (if s[|s| - 1] == c then 1 else 0)
  }

  /** How many positions of `s` hold a character satisfying `p`. */
  function Tally(s: string, p: char -> bool): (n: nat)
    ensures n <= |s|
  {
    if s == [] then 0 else Tally(s[..|s| - 1], p) + (if p(s[|s| - 1]) then 1 else 0)
  }

  /** `d[c] = d.get(c, 0) + 1`. */
  function Increment(d: map<char, nat>, c: char): map<char, nat> {
    d[c := (if c in d then d[c] else 0) + 1]
  }

  /** The dictionary `{c: count}` of the characters of `s` satisfying `p`:
      one key per such character, mapped to its number of occurrences. It
      grows a character at a time, as the counting loop builds it. */
  function Counts(s: string, p: char -> bool): (m: map<char, nat>)
    ensures forall c :: c in m <==> c in s && p(c)
    ensures forall c :: c in m ==> m[c] == Occurrences(s, c) && m[c] > 0
  {
    if s == [] then map[]
    else
      var init := s[..|s| - 1];
      var d := s[|s| - 1];
      assert s == init + [d];
      var m := Counts(init, p);
      if p(d) then Increment(m, d) else m
  }

  /** The `elif` keeps the letter and digit dictionaries apart. */
  lemma LettersAndDigitsDisjoint(s: string)
    ensures Counts(s, IsLetter).Keys !! Counts(s, IsDigit).Keys
  {
  }

  // ---------------------------------------------------------------------
  // Sorting the items
  // ---------------------------------------------------------------------

  predicate CharLe(a: char, b: char) { a <= b }

  lemma CharLeIsTotalOrder()
    ensures TotalOrder(CharLe)
  {
  }

  /** The `(key, value)` pairs of `m` for the keys `keys`, in that order. */
  function Items(keys: seq<char>, m: map<char, nat>): (r: seq<(char, nat)>)
    requires forall i :: 0 <= i < |keys| ==> keys[i] in m
    ensures |r| == |keys|
    ensures forall i :: 0 <= i < |keys| ==> r[i] == (keys[i], m[keys[i]])
  {
    seq(|keys|, i requires 0 <= i < |keys| => (keys[i], m[keys[i]]))
  }

  /** The keys of `m` in strictly ascending order. */
  function SortedKeys(m: map<char, nat>): (keys: seq<char>)
    ensures |keys| == |m|
    ensures forall i :: 0 <= i < |keys| ==> keys[i] in m
    ensures forall c :: c in m ==> c in keys
    ensures forall i, j :: 0 <= i < j < |keys| ==> keys[i] < keys[j]
  {
    CharLeIsTotalOrder();
    var keys := SortSet(m.Keys, CharLe);
    assert forall i, j :: 0 <= i < j < |keys| ==> CharLe(keys[i], keys[j]) && keys[i] != keys[j];
    keys
  }

  /** `sorted(d.items(), key=lambda x: x[0])`, and equally a data frame of
      the items sorted on its character column: every pair of the
      dictionary once, in strictly ascending order of the character. */
  function SortedItems(m: map<char, nat>): (r: seq<(char, nat)>)
    ensures |r| == |m|
    ensures forall i :: 0 <= i < |r| ==> r[i].0 in m && r[i].1 == m[r[i].0]
    ensures forall c :: c in m ==> exists i :: 0 <= i < |r| && r[i].0 == c
    ensures forall i, j :: 0 <= i < j < |r| ==> r[i].0 < r[j].0
  {
    var keys := SortedKeys(m);
    Items(keys, m)
  }

  // ---------------------------------------------------------------------
  // The counting loops
  // ---------------------------------------------------------------------

  /** The text-report counter: letters go to one dictionary, digits to the
      other, everything else is skipped; both are returned as sorted
      items. */
  method CountCharacters(input: string) returns (sortedAlphabets: seq<(char, nat)>, sortedNumbers: seq<(char, nat)>)
    ensures sortedAlphabets == SortedItems(Counts(input, IsLetter))
    ensures sortedNumbers == SortedItems(Counts(input, IsDigit))
  {
    var alphabetCount: map<char, nat> := map[];
    var numberCount: map<char, nat> := map[];
    for i := 0 to |input|
      invariant alphabetCount == Counts(input[..i], IsLetter)
      invariant numberCount == Counts(input[..i], IsDigit)
    {
      var c := input[i];
      assert input[..i + 1][..i] == input[..i];
      if IsLetter(c) {
        alphabetCount := Increment(alphabetCount, c);
      } else if IsDigit(c) {
        numberCount := Increment(numberCount, c);
      }
    }
    assert input[..|input|] == input;
    sortedAlphabets := SortedItems(alphabetCount);
    sortedNumbers := SortedItems(numberCount);
  }

  /** The spreadsheet counter: every alphanumeric character in one
      dictionary, case-sensitive, then the rows sorted by character. */
  method CountAlnum(input: string) returns (rows: seq<(char, nat)>)
    ensures rows == SortedItems(Counts(input, IsAlnum))
  {
    var charCounts: map<char, nat> := map[];
    for i := 0 to |input|
      invariant charCounts == Counts(input[..i], IsAlnum)
    {
      var c := input[i];
      assert input[..i + 1][..i] == input[..i];
      if IsAlnum(c) {
        charCounts := Increment(charCounts, c);
      }
    }
    assert input[..|input|] == input;
    rows := SortedItems(charCounts);
  }

  /** Upper and lower case are counted apart. */
  lemma CaseSensitive()
    ensures Counts("aAa", IsAlnum) == map['a' := 2, 'A' := 1]
  {
    var s := "aAa";
    assert s[..2] == "aA" && s[..2][..1] == "a" && s[..2][..1][..0] == "";
    assert Occurrences(s, 'a') == 2 && Occurrences(s, 'A') == 1;
    forall c ensures c in s <==> c == 'a' || c == 'A' {
      assert c in s <==> c == s[0] || c == s[1] || c == s[2];
    }
  }

  // ---------------------------------------------------------------------
  // The counts add up
  // ---------------------------------------------------------------------

  function Sum(items: seq<(char, nat)>): nat {
    if items == [] then 0 else items[0].1 + Sum(items[1..])
  }

  /** Sum of the occurrences in `s` of each of `keys`. */
  function SumOccurrences(keys: seq<char>, s: string): nat {
    if keys == [] then 0 else Occurrences(s, keys[0]) + SumOccurrences(keys[1..], s)
  }

  /** Positions of `s` holding one of `keys`. */
  function TallyIn(s: string, keys: seq<char>): nat {
    if s == [] then 0 else TallyIn(s[..|s| - 1], keys) + (if s[|s| - 1] in keys then 1 else 0)
  }

  predicate Distinct(keys: seq<char>) {
    forall i, j :: 0 <= i < j < |keys| ==> keys[i] != keys[j]
  }

  lemma {:induction false} SumOfItems(keys: seq<char>, m: map<char, nat>, s: string)
    requires forall i :: 0 <= i < |keys| ==> keys[i] in m && m[keys[i]] == Occurrences(s, keys[i])
    ensures Sum(Items(keys, m)) == SumOccurrences(keys, s)
  {
    if keys != [] {
      SumOfItems(keys[1..], m, s);
      assert Items(keys, m)[1..] == Items(keys[1..], m);
    }
  }

  lemma {:induction false} SumOccurrencesStep(keys: seq<char>, s: string, d: char)
    requires Distinct(keys)
    ensures SumOccurrences(keys, s + [d]) == SumOccurrences(keys, s) + (if d in keys then 1 else 0)
  {
    var t := s + [d];
    assert t[..|t| - 1] == s;
    if keys != [] {
      SumOccurrencesStep(keys[1..], s, d);
      assert d in keys <==> d == keys[0] || d in keys[1..];
      if d == keys[0] {
        assert d !in keys[1..];
      }
    }
  }

  lemma {:induction false} SumOccurrencesIsTally(keys: seq<char>, s: string)
    requires Distinct(keys)
    ensures SumOccurrences(keys, s) == TallyIn(s, keys)
  {
    if s == [] {
      ZeroOccurrences(keys);
    } else {
      var init := s[..|s| - 1];
      SumOccurrencesIsTally(keys, init);
      assert s == init + [s[|s| - 1]];
      SumOccurrencesStep(keys, init, s[|s| - 1]);
    }
  }

  lemma {:induction false} ZeroOccurrences(keys: seq<char>)
    ensures SumOccurrences(keys, "") == 0
  {
    if keys != [] {
      ZeroOccurrences(keys[1..]);
    }
  }

  lemma {:induction false} TallyInAgrees(s: string, keys: seq<char>, p: char -> bool)
    requires forall i :: 0 <= i < |s| ==> (s[i] in keys <==> p(s[i]))
    ensures TallyIn(s, keys) == Tally(s, p)
  {
    if s != [] {
      TallyInAgrees(s[..|s| - 1], keys, p);
    }
  }

  /** The items of a count dictionary add up to the number of characters
      counted. */
  lemma CountsSum(s: string, p: char -> bool)
    ensures Sum(SortedItems(Counts(s, p))) == Tally(s, p)
  {
    var m := Counts(s, p);
    var keys := SortedKeys(m);
    assert Distinct(keys);
    SumOfItems(keys, m, s);
    SumOccurrencesIsTally(keys, s);
    TallyInAgrees(s, keys, p);
  }

  lemma {:induction false} LettersAndDigitsTally(s: string)
    ensures Tally(s, IsLetter) + Tally(s, IsDigit) == Tally(s, IsAlnum)
  {
    if s != [] {
      LettersAndDigitsTally(s[..|s| - 1]);
    }
  }

  /** For ASCII text, the two reports of the text counter together hold
      as many characters as there are alphanumeric characters in the
      input, and so does the spreadsheet counter's single report. */
  lemma CountsCoverAlnum(s: string)
    ensures Sum(SortedItems(Counts(s, IsLetter))) + Sum(SortedItems(Counts(s, IsDigit))) == Tally(s, IsAlnum)
    ensures Sum(SortedItems(Counts(s, IsAlnum))) == Tally(s, IsAlnum)
  {
    CountsSum(s, IsLetter);
    CountsSum(s, IsDigit);
    CountsSum(s, IsAlnum);
    LettersAndDigitsTally(s);
  }

  // ---------------------------------------------------------------------
  // The text report
  // ---------------------------------------------------------------------

  /** One report line without its newline: `c: n`. */
  function CountLine(item: (char, nat)): string {
    [item.0] + ": " + NatToString(item.1)
  }

  function CountLines(items: seq<(char, nat)>): (r: seq<string>)
    ensures |r| == |items| && forall i :: 0 <= i < |items| ==> r[i] == CountLine(items[i])
  {
    seq(|items|, i requires 0 <= i < |items| => CountLine(items[i]))
  }

  const LetterHeader := "Character Counts:"
  const DigitHeader := "Number Counts:"

  /** The lines of the report file. */
  function ReportLines(alphabets: seq<(char, nat)>, numbers: seq<(char, nat)>): seq<string> {
    [LetterHeader] + CountLines(alphabets) + ["", DigitHeader] + CountLines(numbers)
  }

  /** Each line followed by a newline. */
  function Unlines(lines: seq<string>): string {
    if lines == [] then "" else lines[0] + "\n" + Unlines(lines[1..])
  }

  lemma {:induction false} UnlinesSnoc(lines: seq<string>, l: string)
    ensures Unlines(lines + [l]) == Unlines(lines) + l + "\n"
  {
    if lines != [] {
      UnlinesSnoc(lines[1..], l);
      assert (lines + [l])[1..] == lines[1..] + [l];
    }
  }

  lemma {:induction false} UnlinesAppend(xs: seq<string>, ys: seq<string>)
    ensures Unlines(xs + ys) == Unlines(xs) + Unlines(ys)
  {
    if xs == [] {
      assert xs + ys == ys;
    } else {
      var zs := xs + ys;
      assert zs[0] == xs[0] && zs[1..] == xs[1..] + ys;
      UnlinesAppend(xs[1..], ys);
      var line, rest, tail := xs[0] + "\n", Unlines(xs[1..]), Unlines(ys);
      assert Unlines(zs) == line + (rest + tail);
      Assoc(line, rest, tail);
    }
  }

  lemma Assoc(a: string, b: string, c: string)
    ensures a + (b + c) == (a + b) + c
  {
  }

  lemma LinesStep(items: seq<(char, nat)>, i: nat)
    requires i < |items|
    ensures Unlines(CountLines(items[..i + 1])) == Unlines(CountLines(items[..i])) + CountLine(items[i]) + "\n"
  {
    assert CountLines(items[..i + 1]) == CountLines(items[..i]) + [CountLine(items[i])];
    UnlinesSnoc(CountLines(items[..i]), CountLine(items[i]));
  }

  /** The report as the writer produces it, piece by piece. */
  lemma ReportText(alphabets: seq<(char, nat)>, numbers: seq<(char, nat)>)
    ensures Unlines(ReportLines(alphabets, numbers)) ==
      LetterHeader + "\n" + Unlines(CountLines(alphabets)) + "\n" + DigitHeader + "\n" + Unlines(CountLines(numbers))
  {
    var head: seq<string> := [LetterHeader];
    var mid: seq<string> := ["", DigitHeader];
    var a := CountLines(alphabets);
    var n := CountLines(numbers);
    assert ReportLines(alphabets, numbers) == head + (a + (mid + n));
    UnlinesAppend(head, a + (mid + n));
    UnlinesAppend(a, mid + n);
    UnlinesAppend(mid, n);
    UnlinesOne(LetterHeader);
    UnlinesBlankThen(DigitHeader);
    var h, m, ua, un := Unlines(head), Unlines(mid), Unlines(a), Unlines(n);
    assert h + (ua + (m + un)) == h + ua + m + un;
  }

  lemma UnlinesOne(l: string)
    ensures Unlines([l]) == l + "\n"
  {
    assert [l][1..] == [];
  }

  lemma UnlinesBlankThen(l: string)
    ensures Unlines(["", l]) == "\n" + l + "\n"
  {
    var mid: seq<string> := ["", l];
    assert mid[1..] == [l];
    UnlinesOne(l);
    assert Unlines(mid) == "" + "\n" + (l + "\n");
  }

  /** The file written by the report writer: a header, a line per letter,
      a blank line, a second header and a line per digit. */
  method WriteReport(sortedAlphabets: seq<(char, nat)>, sortedNumbers: seq<(char, nat)>) returns (text: string)
    ensures text == Unlines(ReportLines(sortedAlphabets, sortedNumbers))
  {
    text := LetterHeader + "\n";
    text := WriteCountLines(text, sortedAlphabets);
    text := text + "\n" + DigitHeader + "\n";
    text := WriteCountLines(text, sortedNumbers);
    ReportText(sortedAlphabets, sortedNumbers);
  }

  /** One of the writer's loops: a `c: n` line per pair, after `text`. */
  method WriteCountLines(text: string, items: seq<(char, nat)>) returns (out: string)
    ensures out == text + Unlines(CountLines(items))
  {
    out := text;
    for i := 0 to |items|
      invariant out == text + Unlines(CountLines(items[..i]))
    {
      LinesStep(items, i);
      out := out + CountLine(items[i]) + "\n";
    }
    assert items[..|items|] == items;
  }

  /** Reading one report line back. */
  function ParseCountLine(l: string): Option<(char, nat)> {
    if |l| >= 4 && l[1..3] == ": " && AllDigits(l[3..]) then Some((l[0], DigitsValue(l[3..])))
    else None
  }

  lemma CountLineReadsBack(item: (char, nat))
    ensures ParseCountLine(CountLine(item)) == Some(item)
  {
    var l := CountLine(item);
    assert l[3..] == NatToString(item.1);
    NatToStringValue(item.1);
  }

  lemma {:induction false} UnlinesSplit(lines: seq<string>)
    requires forall i :: 0 <= i < |lines| ==> '\n' !in lines[i]
    ensures Split(Unlines(lines), '\n') == lines + [""]
  {
    if lines != [] {
      UnlinesSplit(lines[1..]);
      SplitConcat(lines[0], Unlines(lines[1..]), '\n');
      assert [lines[0]] + (lines[1..] + [""]) == lines + [""];
    }
  }

  /** The report of two histograms (whose characters are letters and
      digits) splits into its lines, and each count line reads back as
      the pair it was written from. */
  lemma ReportReadsBack(alphabets: seq<(char, nat)>, numbers: seq<(char, nat)>)
    requires forall i :: 0 <= i < |alphabets| ==> alphabets[i].0 != '\n'
    requires forall i :: 0 <= i < |numbers| ==> numbers[i].0 != '\n'
    ensures Split(Unlines(ReportLines(alphabets, numbers)), '\n') == ReportLines(alphabets, numbers) + [""]
    ensures forall i :: 0 <= i < |alphabets| ==> ParseCountLine(ReportLines(alphabets, numbers)[1 + i]) == Some(alphabets[i])
    ensures forall i :: 0 <= i < |numbers| ==>
      ParseCountLine(ReportLines(alphabets, numbers)[3 + |alphabets| + i]) == Some(numbers[i])
  {
    var lines := ReportLines(alphabets, numbers);
    forall item: (char, nat) | item.0 != '\n' ensures '\n' !in CountLine(item) {
      assert forall k :: 0 <= k < |NatToString(item.1)| ==> IsDigit(NatToString(item.1)[k]);
    }
    UnlinesSplit(lines);
    forall item: (char, nat) ensures ParseCountLine(CountLine(item)) == Some(item) {
      CountLineReadsBack(item);
    }
  }
}
