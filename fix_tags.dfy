/**
 * FIX tag extraction: for each line of a FIX tag=value log (fields
 * delimited by SOH, 0x01) and each requested tag number, the value of the
 * first field `SOH tag=value` of the line, or nothing. The search pattern
 * holds the SOH delimiter on both sides of the value: the tag must follow
 * an SOH, and the value runs up to the next SOH or the end of the line.
 */
module FixTags {
  import opened Wrappers
  import opened Text

  const SOH: char := 1 as char

  // ---------------------------------------------------------------------
  // The tag list
  // ---------------------------------------------------------------------

  /** Each comma-separated piece, stripped and read by `int()`; `None` when
      a piece is not an integer (the script stops with ValueError). */
  function ParseTagPieces(pieces: seq<string>): (r: Option<seq<int>>)
    ensures r.Some? ==> |r.value| == |pieces|
    ensures r.Some? ==> forall i :: 0 <= i < |pieces| ==> ParseInt(Strip(pieces[i])) == Some(r.value[i])
    ensures r.None? ==> exists i :: 0 <= i < |pieces| && ParseInt(Strip(pieces[i])).None?
  {
    var parsed := seq(|pieces|, i requires 0 <= i < |pieces| => ParseInt(Strip(pieces[i])));
    var k := FirstNone(parsed, 0);
    if k < |parsed| then None
    else Some(seq(|parsed|, i requires 0 <= i < |parsed| => parsed[i].value))
  }

  /** The index of the first failed parse from `i` on; `|parsed|` when
      there is none. */
  function FirstNone(parsed: seq<Option<int>>, i: nat): (k: nat)
    requires i <= |parsed|
    ensures i <= k <= |parsed|
    ensures k < |parsed| ==> parsed[k].None?
    ensures forall j :: i <= j < k ==> parsed[j].Some?
    decreases |parsed| - i
  {
    if i == |parsed| || parsed[i].None? then i else FirstNone(parsed, i + 1)
  }

  /** The tag list typed by the user. */
  function ParseTags(userInput: string): Option<seq<int>> {
    ParseTagPieces(Split(userInput, ','))
  }

  function TagTexts(tags: seq<int>): (r: seq<string>)
    ensures |r| == |tags| && forall i :: 0 <= i < |tags| ==> r[i] == IntToString(tags[i])
  {
    seq(|tags|, i requires 0 <= i < |tags| => IntToString(tags[i]))
  }

  lemma IntTextHasNoComma(n: int)
    ensures ',' !in IntToString(n)
  {
    var m: nat := if n < 0 then -n else n;
    assert forall i :: 0 <= i < |NatToString(m)| ==> IsDigit(NatToString(m)[i]);
  }

  /** Typing the tags back as comma-separated numbers reads them back. */
  lemma ParseTagsRoundTrip(tags: seq<int>)
    requires |tags| > 0
    ensures ParseTags(Join(TagTexts(tags), ',')) == Some(tags)
  {
    var texts := TagTexts(tags);
    forall i | 0 <= i < |texts| ensures ',' !in texts[i] {
      IntTextHasNoComma(tags[i]);
    }
    JoinSplit(texts, ',');
    forall i | 0 <= i < |texts| ensures ParseInt(Strip(texts[i])) == Some(tags[i]) {
      IntToStringParses(tags[i]);
      IntTextStripped(tags[i]);
    }
    ParseTagPiecesExact(texts, tags);
  }

  lemma IntTextStripped(n: int)
    ensures Strip(IntToString(n)) == IntToString(n)
  {
    var m: nat := if n < 0 then -n else n;
    var d := NatToString(m);
    var s := IntToString(n);
    assert IsDigit(s[|s| - 1]) by { assert s[|s| - 1] == d[|d| - 1]; }
    StripNoSpace(s);
  }

  lemma ParseTagPiecesExact(pieces: seq<string>, tags: seq<int>)
    requires |pieces| == |tags|
    requires forall i :: 0 <= i < |pieces| ==> ParseInt(Strip(pieces[i])) == Some(tags[i])
    ensures ParseTagPieces(pieces) == Some(tags)
  {
    var r := ParseTagPieces(pieces);
    assert r.value == tags;
  }

  // ---------------------------------------------------------------------
  // One search
  // ---------------------------------------------------------------------

  /** The lazy `(.*?)` followed by the lookahead for SOH or the end of the
      line: the first index from `s` on holding an SOH, the end, or the
      newline that ends the text; `None` when a newline inside the text
      comes first (`.` does not match it). */
  function ValueEnd(line: string, s: nat): (e: Option<nat>)
    requires s <= |line|
    ensures e.Some? ==> s <= e.value <= |line|
    ensures e.Some? ==> forall k :: s <= k < e.value ==> line[k] != SOH && line[k] != '\n'
    ensures e.Some? ==> e.value == |line| || line[e.value] == SOH || (e.value == |line| - 1 && line[e.value] == '\n')
    decreases |line| - s
  {
    if s == |line| then Some(s)
    else if line[s] == SOH then Some(s)
    else if line[s] == '\n' then (if s == |line| - 1 then Some(s) else None)
    else ValueEnd(line, s + 1)
  }

  /** The match of the pattern for tag text `t` starting at `p`: an SOH, the
      tag, '=', then the value. */
  function FieldAt(line: string, t: string, p: nat): Option<string>
    requires p <= |line|
  {
    if p < |line| && line[p] == SOH && At(line, p + 1, t + "=") then
      var s := p + 1 + |t| + 1;
      var e := ValueEnd(line, s);
      if e.Some? then Some(line[s..e.value]) else None
    else None
  }

  /** `re.search` for one tag in one line: the value of the first matching
      field, or `None`. */
  function ExtractValue(line: string, tag: int): (r: Option<string>)
    ensures r.Some? ==> SOH in line && SOH !in r.value && '\n' !in r.value
    ensures SOH !in line ==> r.None?
  {
    var t := IntToString(tag);
    var f := (p: nat) => if p <= |line| then FieldAt(line, t, p) else None;
    var r := FirstMatch(f, 0, |line|);
    if r.Some? then
      ghost var p :| 0 <= p <= |line| && f(p) == r;
      FieldAtFacts(line, t, p);
      r
    else r
  }

  lemma FieldAtFacts(line: string, t: string, p: nat)
    requires p <= |line|
    ensures var r := FieldAt(line, t, p);
      r.Some? ==> p < |line| && line[p] == SOH && SOH !in r.value && '\n' !in r.value
  {
    var r := FieldAt(line, t, p);
    if r.Some? {
      var s := p + 1 + |t| + 1;
      var e := ValueEnd(line, s).value;
      assert r.value == line[s..e];
      assert forall k :: 0 <= k < |r.value| ==> r.value[k] == line[s + k];
    }
  }

  /** A value is only found right after an SOH and the tag's text with '='. */
  lemma ExtractValueAnchored(line: string, tag: int)
    ensures ExtractValue(line, tag).Some? ==>
      exists p :: 0 <= p < |line| && line[p] == SOH && At(line, p + 1, IntToString(tag) + "=")
  {
    var t := IntToString(tag);
    var f := (p: nat) => if p <= |line| then FieldAt(line, t, p) else None;
    var r := FirstMatch(f, 0, |line|);
    if r.Some? {
      var p :| 0 <= p <= |line| && f(p) == r;
      assert line[p] == SOH && At(line, p + 1, t + "=");
    }
  }

  /** The first SOH-anchored `tag=` field with a value free of SOH and
      newlines, ending at an SOH or at the end of the line, is the one
      extracted. */
  lemma FirstFieldExtracted(line: string, tag: int, p: nat, v: string)
    requires p < |line| && line[p] == SOH && At(line, p + 1, IntToString(tag) + "=")
    requires forall q :: 0 <= q < p ==> !(line[q] == SOH && At(line, q + 1, IntToString(tag) + "="))
    requires var s := p + 2 + |IntToString(tag)|;
      s + |v| <= |line| && line[s..s + |v|] == v && SOH !in v && '\n' !in v &&
      (s + |v| == |line| || line[s + |v|] == SOH)
    ensures ExtractValue(line, tag) == Some(v)
  {
    var t := IntToString(tag);
    var s := p + 2 + |t|;
    ValueEndAt(line, s, s + |v|);
    var f := (q: nat) => if q <= |line| then FieldAt(line, t, q) else None;
    assert f(p) == Some(v);
    FirstMatchAt(f, 0, |line|, p);
  }

  lemma {:induction false} ValueEndAt(line: string, s: nat, e: nat)
    requires s <= e <= |line|
    requires forall k :: s <= k < e ==> line[k] != SOH && line[k] != '\n'
    requires e == |line| || line[e] == SOH
    ensures ValueEnd(line, s) == Some(e)
    decreases e - s
  {
    if s < e {
      ValueEndAt(line, s + 1, e);
    }
  }

  /** The tag must follow an SOH: "135=x" does not give tag 35, and neither
      does a tag in the first field of a line, which no SOH precedes. */
  lemma LongerTagIgnored()
    ensures ExtractValue([SOH] + "135=x", 35) == None
    ensures ExtractValue("35=D" + [SOH], 35) == None
  {
    assert IntToString(35) + "=" == "35=";
    var l1 := [SOH] + "135=x";
    forall p | 0 <= p < |l1| && l1[p] == SOH ensures !At(l1, p + 1, "35=") {
      assert p == 0 && l1[1] == '1';
    }
    NoFieldNoValue(l1, 35);
    var l2 := "35=D" + [SOH];
    forall p | 0 <= p < |l2| && l2[p] == SOH ensures !At(l2, p + 1, "35=") {
      assert p == 4;
    }
    NoFieldNoValue(l2, 35);
  }

  /** No SOH followed by the tag and '=': nothing is found. */
  lemma NoFieldNoValue(line: string, tag: int)
    requires forall p :: 0 <= p < |line| && line[p] == SOH ==> !At(line, p + 1, IntToString(tag) + "=")
    ensures ExtractValue(line, tag) == None
  {
    ExtractValueAnchored(line, tag);
  }

  // ---------------------------------------------------------------------
  // The extraction loop
  // ---------------------------------------------------------------------

  /** How often `tag` occurs in the list. */
  function Count(tags: seq<int>, tag: int): nat {
    if tags == [] then 0 else Count(tags[..|tags| - 1], tag) + (if tags[|tags| - 1] == tag then 1 else 0)
  }

  function Repeat(x: Option<string>, n: nat): (r: seq<Option<string>>)
    ensures |r| == n && forall i :: 0 <= i < n ==> r[i] == x
  {
    if n == 0 then [] else Repeat(x, n - 1) + [x]
  }

  /** The list the script builds for `tag`: per line, one entry for each
      time the tag was requested. */
  function Column(lines: seq<string>, tags: seq<int>, tag: int): seq<Option<string>> {
    if lines == [] then []
    else Column(lines[..|lines| - 1], tags, tag) + Repeat(ExtractValue(lines[|lines| - 1], tag), Count(tags, tag))
  }

  /** The nested loops: every line, every requested tag (a repeated tag is
      visited again), one append to that tag's list. */
  method ExtractColumns(lines: seq<string>, tags: seq<int>) returns (data: map<int, seq<Option<string>>>)
    ensures data.Keys == set t | t in tags
    ensures forall t :: t in tags ==> data[t] == Column(lines, tags, t)
    ensures data == Columns(lines, tags)
  {
    data := map t | t in tags :: [];
    for i := 0 to |lines|
      invariant data.Keys == set t | t in tags
      invariant forall t :: t in tags ==> data[t] == Column(lines[..i], tags, t)
    {
      assert lines[..i + 1][..i] == lines[..i];
      data := ExtractLine(data, lines[i], tags);
    }
    assert lines[..|lines|] == lines;
    SameColumns(data, lines, tags);
  }

  lemma SameColumns(data: map<int, seq<Option<string>>>, lines: seq<string>, tags: seq<int>)
    requires data.Keys == set t | t in tags
    requires forall t :: t in tags ==> data[t] == Column(lines, tags, t)
    ensures data == Columns(lines, tags)
  {
  }

  /** The inner loop over the requested tags for one line: each visit
      appends the tag's value in that line to the tag's list. */
  method ExtractLine(data0: map<int, seq<Option<string>>>, line: string, tags: seq<int>)
    returns (data: map<int, seq<Option<string>>>)
    requires data0.Keys == set t | t in tags
    ensures data.Keys == data0.Keys
    ensures forall t :: t in tags ==> data[t] == data0[t] + Repeat(ExtractValue(line, t), Count(tags, t))
  {
    data := data0;
    for j := 0 to |tags|
      invariant data.Keys == data0.Keys
      invariant LineDone(data0, data, line, tags, j)
    {
      var tag := tags[j];
      var found := ExtractValue(line, tag);
      LineStep(data0, data, line, tags, j);
      data := data[tag := data[tag] + [found]];
    }
    assert tags[..|tags|] == tags;
  }

  /** After the first `j` tags, every list has grown by the line's value
      once per listing of its tag among them. */
  predicate LineDone(data0: map<int, seq<Option<string>>>, data: map<int, seq<Option<string>>>, line: string, tags: seq<int>, j: nat)
    requires data0.Keys == set t | t in tags
    requires data.Keys == data0.Keys && j <= |tags|
  {
    forall t :: t in tags ==> data[t] == data0[t] + Repeat(ExtractValue(line, t), Count(tags[..j], t))
  }

  lemma LineStep(data0: map<int, seq<Option<string>>>, data: map<int, seq<Option<string>>>, line: string, tags: seq<int>, j: nat)
    requires data0.Keys == set t | t in tags
    requires data.Keys == data0.Keys && j < |tags|
    requires LineDone(data0, data, line, tags, j)
    ensures LineDone(data0, data[tags[j] := data[tags[j]] + [ExtractValue(line, tags[j])]], line, tags, j + 1)
  {
    var tag := tags[j];
    var d := data[tag := data[tag] + [ExtractValue(line, tag)]];
    forall t | t in tags
      ensures d[t] == data0[t] + Repeat(ExtractValue(line, t), Count(tags[..j + 1], t))
    {
      TagStep(data0[t], data[t], d[t], line, tags, j, t);
    }
  }

  /** The visit of `tags[j]` as seen by the list of `t`. */
  lemma TagStep(l0: seq<Option<string>>, l: seq<Option<string>>, l1: seq<Option<string>>, line: string, tags: seq<int>, j: nat, t: int)
    requires j < |tags|
    requires l == l0 + Repeat(ExtractValue(line, t), Count(tags[..j], t))
    requires l1 == if tags[j] == t then l + [ExtractValue(line, t)] else l
    ensures l1 == l0 + Repeat(ExtractValue(line, t), Count(tags[..j + 1], t))
  {
    assert tags[..j + 1] == tags[..j] + [tags[j]];
    CountAppend(tags[..j], tags[j], t);
    ListStep(l0, l, l1, ExtractValue(line, t), Count(tags[..j], t), tags[j] == t);
  }

  /** One tag's list across one visit: it grows by the line's value iff
      the visited tag is this one. */
  lemma ListStep(l0: seq<Option<string>>, l: seq<Option<string>>, l1: seq<Option<string>>, x: Option<string>, c: nat, hit: bool)
    requires l == l0 + Repeat(x, c)
    requires l1 == if hit then l + [x] else l
    ensures l1 == l0 + Repeat(x, c + (if hit then 1 else 0))
  {
    if hit {
      AppendOne(l0, Repeat(x, c), x);
    }
  }

  /** Listing one more tag counts it once more. */
  lemma CountAppend(tags: seq<int>, x: int, t: int)
    ensures Count(tags + [x], t) == Count(tags, t) + (if x == t then 1 else 0)
  {
    assert (tags + [x])[..|tags|] == tags;
  }

  /** `(a + b) + [x] == a + (b + [x])`, with `b + [x]` one more repeat. */
  lemma AppendOne(a: seq<Option<string>>, b: seq<Option<string>>, x: Option<string>)
    requires b == Repeat(x, |b|)
    ensures (a + b) + [x] == a + Repeat(x, |b| + 1)
  {
    assert Repeat(x, |b| + 1) == b + [x];
  }

  lemma {:induction false} CountBound(tags: seq<int>, tag: int)
    ensures Count(tags, tag) <= |tags|
    ensures tag in tags <==> Count(tags, tag) > 0
  {
    if tags != [] {
      var init := tags[..|tags| - 1];
      CountBound(init, tag);
      assert tags == init + [tags[|tags| - 1]];
    }
  }

  lemma {:induction false} CountDistinct(tags: seq<int>, tag: int)
    requires forall i, j :: 0 <= i < j < |tags| ==> tags[i] != tags[j]
    requires tag in tags
    ensures Count(tags, tag) == 1
  {
    var init := tags[..|tags| - 1];
    assert tags == init + [tags[|tags| - 1]];
    if tags[|tags| - 1] == tag {
      CountBound(init, tag);
    } else {
      CountDistinct(init, tag);
    }
  }

  /** Every column gains the tag's request count per line. */
  lemma {:induction false} ColumnLength(lines: seq<string>, tags: seq<int>, tag: int)
    ensures |Column(lines, tags, tag)| == |lines| * Count(tags, tag)
  {
    if lines != [] {
      var n := |lines|;
      var c := Count(tags, tag);
      var init := lines[..n - 1];
      ColumnLength(init, tags, tag);
      var last := Repeat(ExtractValue(lines[n - 1], tag), c);
      assert Column(lines, tags, tag) == Column(init, tags, tag) + last;
      MulStep(n, c);
    }
  }

  lemma MulStep(n: nat, c: nat)
    requires n >= 1
    ensures (n - 1) * c + c == n * c
  {
  }

  /** With each tag requested once, a column has one entry per line: the
      value found in that line. */
  lemma {:induction false} ColumnOfDistinctTags(lines: seq<string>, tags: seq<int>, tag: int)
    requires forall i, j :: 0 <= i < j < |tags| ==> tags[i] != tags[j]
    requires tag in tags
    ensures |Column(lines, tags, tag)| == |lines|
    ensures forall i :: 0 <= i < |lines| ==> Column(lines, tags, tag)[i] == ExtractValue(lines[i], tag)
  {
    CountDistinct(tags, tag);
    if lines != [] {
      var n := |lines| - 1;
      var init := lines[..n];
      ColumnOfDistinctTags(init, tags, tag);
      var c := Column(init, tags, tag);
      var x := ExtractValue(lines[n], tag);
      assert Repeat(x, 1) == [x];
      var col := Column(lines, tags, tag);
      assert col == c + [x];
      forall i | 0 <= i < |lines| ensures col[i] == ExtractValue(lines[i], tag) {
        if i < n {
          assert col[i] == c[i] && init[i] == lines[i];
        } else {
          assert col[i] == x;
        }
      }
    }
  }

  // ---------------------------------------------------------------------
  // The table built from the columns
  // ---------------------------------------------------------------------

  /** The dictionary of columns the loops build, keyed by tag. */
  function Columns(lines: seq<string>, tags: seq<int>): (data: map<int, seq<Option<string>>>)
    ensures data.Keys == set t | t in tags
  {
    map t | t in tags :: Column(lines, tags, t)
  }

  /** Every column has the same length. */
  predicate ColumnsAligned(data: map<int, seq<Option<string>>>) {
    forall t1, t2 :: t1 in data && t2 in data ==> |data[t1]| == |data[t2]|
  }

  /** `pd.DataFrame` over the dictionary of columns: the table when all the
      lists have one length, a ValueError (nothing) otherwise. */
  function DataFrame(data: map<int, seq<Option<string>>>): (r: Option<map<int, seq<Option<string>>>>)
    ensures r.Some? <==> ColumnsAligned(data)
    ensures r.Some? ==> r.value == data
  {
    if ColumnsAligned(data) then Some(data) else None
  }

  /** Once there is a line, the table is built exactly when every listed
      tag is listed equally often. */
  lemma FrameBuiltIffEvenCounts(lines: seq<string>, tags: seq<int>)
    requires |lines| > 0
    ensures DataFrame(Columns(lines, tags)).Some? <==>
      forall t1, t2 :: t1 in tags && t2 in tags ==> Count(tags, t1) == Count(tags, t2)
  {
    var data := Columns(lines, tags);
    forall t | t in tags ensures |data[t]| == |lines| * Count(tags, t) {
      ColumnLength(lines, tags, t);
    }
    forall t1, t2 | t1 in tags && t2 in tags
      ensures |data[t1]| == |data[t2]| <==> Count(tags, t1) == Count(tags, t2)
    {
      MulCancel(|lines|, Count(tags, t1), Count(tags, t2));
    }
  }

  lemma MulCancel(n: nat, a: nat, b: nat)
    requires n > 0
    ensures n * a == n * b <==> a == b
  {
    if a < b {
      assert n * a < n * b by { MulLess(n, a, b); }
    } else if b < a {
      assert n * b < n * a by { MulLess(n, b, a); }
    }
  }

  lemma MulLess(n: nat, a: nat, b: nat)
    requires n > 0 && a < b
    ensures n * a < n * b
  {
    assert n * b == n * a + n * (b - a);
  }

  /** Distinct tags always give a table, whatever the lines. */
  lemma DistinctTagsFrame(lines: seq<string>, tags: seq<int>)
    requires forall i, j :: 0 <= i < j < |tags| ==> tags[i] != tags[j]
    ensures DataFrame(Columns(lines, tags)).Some?
  {
    var data := Columns(lines, tags);
    forall t | t in tags ensures |data[t]| == |lines| {
      ColumnOfDistinctTags(lines, tags, t);
    }
  }

  /** A tag listed twice next to a tag listed once: once there is a line,
      the columns differ in length and no table is built. */
  lemma RepeatedTagRefused(lines: seq<string>, tag: int, other: int)
    requires |lines| > 0 && tag != other
    ensures DataFrame(Columns(lines, [tag, other, tag])).None?
  {
    RepeatedTagDoubles(lines, tag, other);
    var data := Columns(lines, [tag, other, tag]);
    assert |data[tag]| != |data[other]|;
  }

  /** A tag requested twice gets two entries per line. */
  lemma RepeatedTagDoubles(lines: seq<string>, tag: int, other: int)
    requires tag != other
    ensures |Column(lines, [tag, other, tag], tag)| == 2 * |lines|
    ensures |Column(lines, [tag, other, tag], other)| == |lines|
  {
    var tags := [tag, other, tag];
    assert tags[..2] == [tag, other] && tags[..2][..1] == [tag] && [tag][..0] == [];
    assert Count([tag], tag) == 1 && Count([tag], other) == 0;
    assert Count([tag, other], tag) == 1 && Count([tag, other], other) == 1;
    assert Count(tags, tag) == 2 && Count(tags, other) == 1;
    ColumnLength(lines, tags, tag);
    ColumnLength(lines, tags, other);
  }
}
