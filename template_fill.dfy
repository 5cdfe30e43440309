/**
 * The placeholder template filler (json/fill_template.py and
 * excel/fill_excel.py): variables come from a JSON object, from
 * `KEY=VALUE` command-line items or from spreadsheet rows, and each key
 * rewrites `${KEY}`, `{{KEY}}`, `"KEY"` and the bare word KEY in the
 * template, key after key.
 *
 * A Python dict is a sequence of (key, value) pairs with distinct keys in
 * insertion order: assigning to an existing key keeps its place, a new key
 * goes to the end.
 */
module TemplateFill {
  import opened Wrappers
  import opened Text

  type Dict = seq<(string, string)>

  predicate KeysDistinct(d: Dict) {
    forall i, j :: 0 <= i < j < |d| ==> d[i].0 != d[j].0
  }

  /** `d.get(k)`. */
  function Get(d: Dict, k: string): (r: Option<string>)
    ensures r.None? <==> forall i :: 0 <= i < |d| ==> d[i].0 != k
    ensures r.Some? ==> exists i :: 0 <= i < |d| && d[i] == (k, r.value)
  {
    if d == [] then None
    else if d[0].0 == k then assert d[0] == (k, d[0].1); Some(d[0].1)
    else
      var r := Get(d[1..], k);
      if r.Some? then
        ghost var i :| 0 <= i < |d[1..]| && d[1..][i] == (k, r.value);
        assert d[i + 1] == (k, r.value);
        r
      else r
  }

  /** `d[k] = v`. */
  function Set(d: Dict, k: string, v: string): (r: Dict)
    ensures Get(r, k) == Some(v)
    ensures forall k' :: k' != k ==> Get(r, k') == Get(d, k')
    ensures Get(d, k).Some? ==> |r| == |d| && forall i :: 0 <= i < |d| ==> r[i].0 == d[i].0
    ensures Get(d, k).None? ==> r == d + [(k, v)]
  {
    if d == [] then [(k, v)]
    else if d[0].0 == k then
      var r := [(k, v)] + d[1..];
      assert r[1..] == d[1..];
      r
    else
      var rest := Set(d[1..], k, v);
      var r := [d[0]] + rest;
      assert r[0] == d[0] && r[1..] == rest;
      assert Get(d, k) == Get(d[1..], k);
      r
  }

  /** Assignment keeps the keys distinct: an existing key is overwritten in
      its place and a new one is appended. */
  lemma SetKeepsDistinct(d: Dict, k: string, v: string)
    ensures KeysDistinct(d) ==> KeysDistinct(Set(d, k, v))
  {
    var r := Set(d, k, v);
    if KeysDistinct(d) && Get(d, k).None? {
      forall i, j | 0 <= i < j < |r| ensures r[i].0 != r[j].0 {
        if j == |d| {
          assert r[i] == d[i];
        }
      }
    }
  }

  /** `d.update(e)` for a dict `e`: the entries of `e` assigned in order. */
  function Update(d: Dict, e: Dict): (r: Dict)
    requires KeysDistinct(e)
    ensures forall k :: Get(r, k) == if Get(e, k).Some? then Get(e, k) else Get(d, k)
    ensures KeysDistinct(d) ==> KeysDistinct(r)
    decreases |e|
  {
    if e == [] then d
    else
      assert forall k :: Get(e, k) == if e[0].0 == k then Some(e[0].1) else Get(e[1..], k);
      assert Get(e[1..], e[0].0).None?;
      SetKeepsDistinct(d, e[0].0, e[0].1);
      Update(Set(d, e[0].0, e[0].1), e[1..])
  }

  // ---------------------------------------------------------------------
  // KEY=VALUE items
  // ---------------------------------------------------------------------

  /** The index of the first `c` in `s`. */
  function IndexOf(s: string, c: char): (i: nat)
    requires c in s
    ensures i < |s| && s[i] == c && c !in s[..i]
  {
    if s[0] == c then 0 else IndexOf(s[1..], c) + 1
  }

  /** `kv.split('=', 1)` for an item containing '=', as a (key, value)
      pair; `None` for an item without '=', which is skipped. */
  function SplitAtEq(kv: string): (r: Option<(string, string)>)
    ensures r.None? <==> '=' !in kv
    ensures r.Some? ==> kv == r.value.0 + "=" + r.value.1 && '=' !in r.value.0
  {
    if '=' in kv then
      var i := IndexOf(kv, '=');
      assert kv == kv[..i] + "=" + kv[i + 1..];
      Some((kv[..i], kv[i + 1..]))
    else None
  }

  /** The item assigns to key `k`. */
  predicate Assigns(item: string, k: string) {
    SplitAtEq(item).Some? && SplitAtEq(item).value.0 == k
  }

  /** `d` after `data[k] = v` for each item with '=' in turn. */
  function AssignAll(d: Dict, items: seq<string>): (r: Dict)
    ensures KeysDistinct(d) ==> KeysDistinct(r)
  {
    if items == [] then d
    else
      var r := AssignAll(d, items[..|items| - 1]);
      var kv := SplitAtEq(items[|items| - 1]);
      if kv.Some? then SetKeepsDistinct(r, kv.value.0, kv.value.1); Set(r, kv.value.0, kv.value.1) else r
  }

  /** Each key ends up with the value of the last item assigning to it. */
  lemma {:induction false} AssignAllLast(d: Dict, items: seq<string>, k: string, j: nat)
    requires j < |items| && Assigns(items[j], k)
    requires forall j' :: j < j' < |items| ==> !Assigns(items[j'], k)
    ensures Get(AssignAll(d, items), k) == Some(SplitAtEq(items[j]).value.1)
  {
    var init := items[..|items| - 1];
    if j < |items| - 1 {
      assert !Assigns(items[|items| - 1], k);
      assert forall j' :: j < j' < |init| ==> init[j'] == items[j'];
      AssignAllLast(d, init, k, j);
    }
  }

  /** A key no item assigns to keeps its value from `d`. */
  lemma {:induction false} AssignAllUntouched(d: Dict, items: seq<string>, k: string)
    requires forall j :: 0 <= j < |items| ==> !Assigns(items[j], k)
    ensures Get(AssignAll(d, items), k) == Get(d, k)
  {
    if items != [] {
      var init := items[..|items| - 1];
      assert forall j :: 0 <= j < |init| ==> init[j] == items[j];
      assert !Assigns(items[|items| - 1], k);
      AssignAllUntouched(d, init, k);
    }
  }

  function ItemsOf(items: Option<seq<string>>): seq<string> {
    if items.Some? then items.value else []
  }

  function DictOf(d: Option<Dict>): Dict {
    if d.Some? then d.value else []
  }

  /** load_vars_from_cli: a dict from the `KEY=VALUE` items (none when the
      option was not given). */
  method LoadVarsFromCli(cliVars: Option<seq<string>>) returns (data: Dict)
    ensures data == AssignAll([], ItemsOf(cliVars))
    ensures KeysDistinct(data)
  {
    var items := ItemsOf(cliVars);
    data := [];
    for n := 0 to |items|
      invariant data == AssignAll([], items[..n])
    {
      assert items[..n + 1][..n] == items[..n];
      var kv := SplitAtEq(items[n]);
      if kv.Some? {
        data := Set(data, kv.value.0, kv.value.1);
      }
    }
    assert items[..|items|] == items;
  }

  /** load_vars (json/fill_template.py): the JSON object's entries, then the
      command-line items assigned over them. */
  method LoadVars(jsonVars: Option<Dict>, cliVars: Option<seq<string>>) returns (data: Dict)
    requires jsonVars.Some? ==> KeysDistinct(jsonVars.value)
    ensures data == AssignAll(Update([], DictOf(jsonVars)), ItemsOf(cliVars))
    ensures KeysDistinct(data)
  {
    data := [];
    if jsonVars.Some? {
      data := Update(data, jsonVars.value);
    }
    var items := ItemsOf(cliVars);
    for n := 0 to |items|
      invariant data == AssignAll(Update([], DictOf(jsonVars)), items[..n])
      invariant KeysDistinct(data)
    {
      assert items[..n + 1][..n] == items[..n];
      var kv := SplitAtEq(items[n]);
      if kv.Some? {
        SetKeepsDistinct(data, kv.value.0, kv.value.1);
        data := Set(data, kv.value.0, kv.value.1);
      }
    }
    assert items[..|items|] == items;
  }

  /** The variables main (excel/fill_excel.py) fills a single template with:
      the JSON object's entries updated with the command-line dict. */
  function SingleModeMapping(jsonVars: Option<Dict>, cliVars: Option<seq<string>>): (r: Dict)
    requires jsonVars.Some? ==> KeysDistinct(jsonVars.value)
  {
    Update(Update([], DictOf(jsonVars)), AssignAll([], ItemsOf(cliVars)))
  }

  /** Both scripts give a key the same value: fill_excel.py's update of the
      JSON dict with the command-line dict agrees with fill_template.py's
      assignments over the JSON dict. */
  lemma {:induction false} SingleModeAgreesWithLoadVars(jsonVars: Option<Dict>, cliVars: Option<seq<string>>, k: string)
    requires jsonVars.Some? ==> KeysDistinct(jsonVars.value)
    ensures Get(SingleModeMapping(jsonVars, cliVars), k) == Get(AssignAll(Update([], DictOf(jsonVars)), ItemsOf(cliVars)), k)
  {
    var items := ItemsOf(cliVars);
    if j :| 0 <= j < |items| && Assigns(items[j], k) {
      var last := LastAssignment(items, k, j);
      AssignAllLast([], items, k, last);
      AssignAllLast(Update([], DictOf(jsonVars)), items, k, last);
    } else {
      AssignAllUntouched([], items, k);
      AssignAllUntouched(Update([], DictOf(jsonVars)), items, k);
    }
  }

  /** The last item assigning to `k`, given one at or after `j`. */
  lemma {:induction false} LastAssignment(items: seq<string>, k: string, j: nat) returns (last: nat)
    requires j < |items| && Assigns(items[j], k)
    ensures j <= last < |items| && Assigns(items[last], k)
    ensures forall j' :: last < j' < |items| ==> !Assigns(items[j'], k)
    decreases |items| - j
  {
    if j' :| j < j' < |items| && Assigns(items[j'], k) {
      last := LastAssignment(items, k, j');
    } else {
      last := j;
    }
  }

  /** A command-line item overrides the JSON value of the same key (the
      last such item wins); otherwise the JSON value stays, and a key
      nobody sets is absent. */
  lemma CliOverridesJson(jsonVars: Option<Dict>, cliVars: Option<seq<string>>, k: string, j: nat)
    requires jsonVars.Some? ==> KeysDistinct(jsonVars.value)
    requires j < |ItemsOf(cliVars)| && Assigns(ItemsOf(cliVars)[j], k)
    requires forall j' :: j < j' < |ItemsOf(cliVars)| ==> !Assigns(ItemsOf(cliVars)[j'], k)
    ensures Get(SingleModeMapping(jsonVars, cliVars), k) == Some(SplitAtEq(ItemsOf(cliVars)[j]).value.1)
  {
    AssignAllLast([], ItemsOf(cliVars), k, j);
  }

  lemma JsonKeptWithoutCli(jsonVars: Option<Dict>, cliVars: Option<seq<string>>, k: string)
    requires jsonVars.Some? ==> KeysDistinct(jsonVars.value)
    requires forall j :: 0 <= j < |ItemsOf(cliVars)| ==> !Assigns(ItemsOf(cliVars)[j], k)
    ensures Get(SingleModeMapping(jsonVars, cliVars), k) == Get(DictOf(jsonVars), k)
  {
    AssignAllUntouched([], ItemsOf(cliVars), k);
  }

  // ---------------------------------------------------------------------
  // Placeholder rewriting
  // ---------------------------------------------------------------------

  /** The patterns a key is searched with: `open \s* KEY \s* close`, the
      quoted key, and the key between word boundaries. */
  datatype Pattern = Braced(open: string, key: string, close: string) | Quoted(key: string) | Bare(key: string)

  /** `\s*` greedy with backtracking: the key is tried after the longest run
      of whitespace first, then after shorter ones, down to `lo`. */
  function BracedFrom(t: string, key: string, close: string, lo: nat, p: nat): (r: Option<nat>)
    requires lo <= p <= |t|
    ensures r.Some? ==> lo <= r.value <= |t|
    decreases p - lo
  {
    if At(t, p, key) && At(t, SkipSpace(t, p + |key|), close) then Some(SkipSpace(t, p + |key|) + |close|)
    else if p == lo then None
    else BracedFrom(t, key, close, lo, p - 1)
  }

  /** Where the match of the pattern starting at `i` ends, if one starts
      there. */
  function MatchAt(pat: Pattern, t: string, i: nat): (r: Option<nat>)
    requires i <= |t|
    ensures r.Some? ==> i <= r.value <= |t|
  {
    match pat
    case Braced(open, key, close) =>
      if At(t, i, open) then BracedFrom(t, key, close, i + |open|, SkipSpace(t, i + |open|)) else None
    case Quoted(key) =>
      if At(t, i, "\"" + key + "\"") then Some(i + |key| + 2) else None
    case Bare(key) =>
      if At(t, i, key) && Boundary(t, i) && Boundary(t, i + |key|) then Some(i + |key|) else None
  }

  /** `re.sub` (and `str.replace`) of the pattern by `v` in `t[i..]`: matches
      are taken from left to right without overlapping; after an empty match
      the next character is copied before searching on. */
  function SubFrom(t: string, pat: Pattern, v: string, i: nat): string
    requires i <= |t|
    decreases |t| - i, if MatchAt(pat, t, i).Some? then 1 else 0
  {
    var m := MatchAt(pat, t, i);
    if m.Some? && m.value > i then v + SubFrom(t, pat, v, m.value)
    else if i == |t| then (if m.Some? then v else "")
    else (if m.Some? then v else "") + [t[i]] + SubFrom(t, pat, v, i + 1)
  }

  function Sub(t: string, pat: Pattern, v: string): string {
    SubFrom(t, pat, v, 0)
  }

  /** The four rewrites of one key, in the scripts' order. */
  function RewriteKey(t: string, k: string, v: string): string {
    var t1 := Sub(t, Braced("${", k, "}"), v);
    var t2 := Sub(t1, Braced("{{", k, "}}"), v);
    var t3 := Sub(t2, Quoted(k), v);
    Sub(t3, Bare(k), v)
  }

  /** The template after the rewrites of every key, key after key. */
  function FillSpec(t: string, mapping: Dict): string {
    if mapping == [] then t
    else
      var (k, v) := mapping[|mapping| - 1];
      RewriteKey(FillSpec(t, mapping[..|mapping| - 1]), k, v)
  }

  predicate NoBackslash(s: string) { '\\' !in s }

  predicate ValuesLiteral(mapping: Dict) {
    forall i :: 0 <= i < |mapping| ==> NoBackslash(mapping[i].1)
  }

  /** fill / fill_template: each key of the mapping in order rewrites the
      text produced by the keys before it. */
  method Fill(templateText: string, mapping: Dict) returns (out: string)
    requires ValuesLiteral(mapping)
    ensures out == FillSpec(templateText, mapping)
  {
    out := templateText;
    for n := 0 to |mapping|
      invariant out == FillSpec(templateText, mapping[..n])
    {
      assert mapping[..n + 1][..n] == mapping[..n];
      var (k, v) := mapping[n];
      out := Sub(out, Braced("${", k, "}"), v);
      out := Sub(out, Braced("{{", k, "}}"), v);
      out := Sub(out, Quoted(k), v);
      out := Sub(out, Bare(k), v);
    }
    assert mapping[..|mapping|] == mapping;
  }

  /** Where the pattern matches nowhere, the text comes back unchanged. */
  lemma {:induction false} SubNoMatch(t: string, pat: Pattern, v: string, i: nat)
    requires i <= |t|
    requires forall p :: i <= p <= |t| ==> MatchAt(pat, t, p).None?
    ensures SubFrom(t, pat, v, i) == t[i..]
    decreases |t| - i
  {
    if i < |t| {
      SubNoMatch(t, pat, v, i + 1);
      assert t[i..] == [t[i]] + t[i + 1..];
    }
  }

  /** Every pattern of a key needs the key itself in the text. */
  lemma MatchNeedsKey(pat: Pattern, t: string, i: nat)
    requires i <= |t| && !Contains(t, pat.key)
    ensures MatchAt(pat, t, i).None?
  {
    match pat
    case Braced(open, key, close) =>
      if At(t, i, open) {
        BracedNeedsKey(t, key, close, i + |open|, SkipSpace(t, i + |open|));
      }
    case Quoted(key) =>
      if At(t, i, "\"" + key + "\"") {
        var q := "\"" + key + "\"";
        assert t[i..i + |q|] == q;
        assert forall j :: 0 <= j < |key| ==> t[i + 1 + j] == t[i..i + |q|][1 + j] == q[1 + j] == key[j];
        assert t[i + 1..i + 1 + |key|] == key;
        assert At(t, i + 1, key);
      }
    case Bare(key) =>
  }

  lemma {:induction false} BracedNeedsKey(t: string, key: string, close: string, lo: nat, p: nat)
    requires lo <= p <= |t| && !Contains(t, key)
    ensures BracedFrom(t, key, close, lo, p).None?
    decreases p - lo
  {
    if p > lo {
      BracedNeedsKey(t, key, close, lo, p - 1);
    }
  }

  /** A key that does not occur in the text leaves it unchanged. */
  lemma AbsentKeyUnchanged(t: string, k: string, v: string)
    requires !Contains(t, k)
    ensures RewriteKey(t, k, v) == t
  {
    forall pat: Pattern, p | pat.key == k && 0 <= p <= |t|
      ensures MatchAt(pat, t, p).None?
    {
      MatchNeedsKey(pat, t, p);
    }
    SubNoMatch(t, Braced("${", k, "}"), v, 0);
    SubNoMatch(t, Braced("{{", k, "}}"), v, 0);
    SubNoMatch(t, Quoted(k), v, 0);
    SubNoMatch(t, Bare(k), v, 0);
  }

  /** An empty mapping, or keys none of which occur in the template, leave
      the template unchanged. */
  lemma {:induction false} AbsentKeysUnchanged(t: string, mapping: Dict)
    requires forall i :: 0 <= i < |mapping| ==> !Contains(t, mapping[i].0)
    ensures FillSpec(t, mapping) == t
  {
    if mapping != [] {
      var init := mapping[..|mapping| - 1];
      assert forall i :: 0 <= i < |init| ==> init[i] == mapping[i];
      AbsentKeysUnchanged(t, init);
      AbsentKeyUnchanged(t, mapping[|mapping| - 1].0, mapping[|mapping| - 1].1);
    }
  }

  /** A text that is one match of the pattern, and has no match left after
      it, becomes the value. */
  lemma WholeMatch(t: string, pat: Pattern, v: string)
    requires |t| > 0 && MatchAt(pat, t, 0) == Some(|t|) && MatchAt(pat, t, |t|).None?
    ensures Sub(t, pat, v) == v
  {
    assert SubFrom(t, pat, v, |t|) == "";
  }

  function Spaces(n: nat): (s: string)
    ensures |s| == n && forall i :: 0 <= i < n ==> s[i] == ' '
  {
    if n == 0 then "" else " " + Spaces(n - 1)
  }

  /** A key the bare-word form can name: word characters only. */
  predicate WordKey(k: string) {
    |k| > 0 && forall i :: 0 <= i < |k| ==> IsWordChar(k[i])
  }

  /** The four placeholder forms, the braced ones with spaces inside. */
  datatype Form = Dollar(before: nat, after: nat) | Mustache(before: nat, after: nat) | InQuotes | BareWord

  function Placeholder(f: Form, k: string): string {
    match f
    case Dollar(b, a) => "${" + Spaces(b) + k + Spaces(a) + "}"
    case Mustache(b, a) => "{{" + Spaces(b) + k + Spaces(a) + "}}"
    case InQuotes => "\"" + k + "\""
    case BareWord => k
  }

  /** A character no placeholder of a word key contains apart from its own
      delimiters blocks every match of a pattern that starts with it. */
  lemma NoOpenerNoMatch(t: string, pat: Pattern, p: nat)
    requires p <= |t|
    requires pat.Braced? ==> |pat.open| > 0 && pat.open[0] !in t
    requires pat.Quoted? ==> '"' !in t
    requires pat.Bare? ==> !Contains(t, pat.key)
    ensures MatchAt(pat, t, p).None?
  {
    match pat
    case Braced(open, key, close) =>
      AtHead(t, p, open);
    case Quoted(key) =>
      AtHead(t, p, "\"" + key + "\"");
    case Bare(key) =>
  }

  lemma AtHead(t: string, p: nat, s: string)
    requires |s| > 0
    ensures At(t, p, s) ==> p < |t| && t[p] == s[0]
  {
    if At(t, p, s) {
      assert t[p..p + |s|][0] == s[0];
    }
  }

  lemma SubBlocked(t: string, pat: Pattern, v: string)
    requires pat.Braced? ==> |pat.open| > 0 && pat.open[0] !in t
    requires pat.Quoted? ==> '"' !in t
    requires pat.Bare? ==> !Contains(t, pat.key)
    ensures Sub(t, pat, v) == t
  {
    forall p | 0 <= p <= |t| ensures MatchAt(pat, t, p).None? {
      NoOpenerNoMatch(t, pat, p);
    }
    SubNoMatch(t, pat, v, 0);
  }

  lemma WordKeyDelimiters(k: string)
    requires WordKey(k)
    ensures '$' !in k && '{' !in k && '"' !in k && ' ' !in k
  {
  }

  /** A slice inside a known prefix is the same slice of the prefix. */
  lemma SliceInPrefix(t: string, c: string, i: nat, j: nat)
    requires |c| <= |t| && t[..|c|] == c && i <= j <= |c|
    ensures t[i..j] == c[i..j]
  {
    assert forall m :: i <= m < j ==> t[m] == t[..|c|][m];
  }

  /** Where the parts of a braced placeholder sit. */
  lemma BracedLayout(open: string, close: string, b: nat, a: nat, k: string)
    requires |open| == 2
    ensures var t := open + Spaces(b) + k + Spaces(a) + close;
      && var p := 2 + b;
      && var q := p + |k| + a;
      && At(t, 0, open) && At(t, p, k) && At(t, q, close) && q + |close| == |t|
      && (forall j :: 2 <= j < p ==> t[j] == ' ')
      && (forall j :: p + |k| <= j < q ==> t[j] == ' ')
  {
    var A := open + Spaces(b);
    var B := A + k;
    var C := B + Spaces(a);
    var t := C + close;
    assert t[..|C|] == C && C[..|B|] == B && B[..|A|] == A;
    assert t[..|B|] == B by { SliceInPrefix(t, C, 0, |B|); }
    assert t[..|A|] == A by { SliceInPrefix(t, B, 0, |A|); }
    assert At(t, 0, open) by { SliceInPrefix(t, A, 0, 2); }
    assert At(t, |A|, k) by { SliceInPrefix(t, B, |A|, |B|); }
    assert At(t, |C|, close);
    forall j | 2 <= j < |A| ensures t[j] == ' ' {
      assert t[j] == A[j];
    }
    forall j | |B| <= j < |C| ensures t[j] == ' ' {
      assert t[j] == C[j];
    }
  }

  /** A text laid out as opener, spaces, key, spaces, closer is one
      match of the braced pattern. */
  lemma BracedMatchesWhole(t: string, open: string, close: string, k: string, p: nat, q: nat)
    requires |open| == 2 && |k| > 0 && !IsSpace(k[0]) && |close| > 0 && close[0] == '}'
    requires 2 <= p && p + |k| <= q && q + |close| == |t|
    requires At(t, 0, open) && At(t, p, k) && At(t, q, close)
    requires forall j :: 2 <= j < p ==> t[j] == ' '
    requires forall j :: p + |k| <= j < q ==> t[j] == ' '
    ensures MatchAt(Braced(open, k, close), t, 0) == Some(|t|)
    ensures MatchAt(Braced(open, k, close), t, |t|).None?
  {
    AtHead(t, p, k);
    SkipSpaceRun(t, 2, p);
    AtHead(t, q, close);
    SkipSpaceRun(t, p + |k|, q);
    assert BracedFrom(t, k, close, 2, p) == Some(|t|);
  }

  /** The braced form with spaces matches as a whole. */
  lemma BracedPlaceholderMatches(t: string, open: string, close: string, b: nat, a: nat, k: string)
    requires WordKey(k) && |open| == 2 && |close| > 0 && close[0] == '}'
    requires t == open + Spaces(b) + k + Spaces(a) + close
    ensures MatchAt(Braced(open, k, close), t, 0) == Some(|t|) && MatchAt(Braced(open, k, close), t, |t|).None?
  {
    BracedLayout(open, close, b, a, k);
    BracedMatchesWhole(t, open, close, k, 2 + b, 2 + b + |k| + a);
  }

  /** SkipSpace stops at the first non-space after a run of spaces. */
  lemma {:induction false} SkipSpaceRun(t: string, i: nat, j: nat)
    requires i <= j < |t| && !IsSpace(t[j])
    requires forall k :: i <= k < j ==> t[k] == ' '
    ensures SkipSpace(t, i) == j
    decreases j - i
  {
    if i < j {
      SkipSpaceRun(t, i + 1, j);
    }
  }

  /** Every character of `t[lo..hi]` is whitespace. */
  predicate SpaceRun(t: string, lo: nat, hi: nat) {
    lo <= hi <= |t| && forall k :: lo <= k < hi ==> IsSpace(t[k])
  }

  /** `t[i..e]` is the opening delimiter, whitespace, the key at `a`,
      whitespace, and the closing delimiter. */
  predicate BracedSpan(t: string, open: string, key: string, close: string, i: nat, a: nat, e: nat) {
    && i + |open| <= a && a + |key| + |close| <= e <= |t|
    && At(t, i, open) && SpaceRun(t, i + |open|, a)
    && At(t, a, key) && SpaceRun(t, a + |key|, e - |close|)
    && At(t, e - |close|, close)
  }

  /** A match is exactly a placeholder: the braced forms match the key
      between their delimiters padded with whitespace, the quoted form the
      key in double quotes, the bare form the key between word
      boundaries. With BracedPlaceholderMatches this describes the braced
      matches in both directions. */
  lemma MatchIsPlaceholder(pat: Pattern, t: string, i: nat) returns (a: nat)
    requires i <= |t| && MatchAt(pat, t, i).Some?
    ensures var e := MatchAt(pat, t, i).value;
      && (pat.Braced? ==> BracedSpan(t, pat.open, pat.key, pat.close, i, a, e))
      && (pat.Quoted? ==> t[i..e] == "\"" + pat.key + "\"")
      && (pat.Bare? ==> t[i..e] == pat.key && Boundary(t, i) && Boundary(t, e))
  {
    a := i;
    match pat
    case Braced(open, key, close) =>
      var lo := i + |open|;
      assert At(t, i, open) && BracedFrom(t, key, close, lo, SkipSpace(t, lo)) == MatchAt(pat, t, i);
      a := BracedSpanOf(t, open, key, close, i, MatchAt(pat, t, i).value);
    case Quoted(key) =>
      var q := "\"" + key + "\"";
      assert At(t, i, q) && MatchAt(pat, t, i) == Some(i + |q|);
    case Bare(key) =>
      assert At(t, i, key) && MatchAt(pat, t, i) == Some(i + |key|);
  }

  /** A braced match from `i` to `e` spans a placeholder. */
  lemma BracedSpanOf(t: string, open: string, key: string, close: string, i: nat, e: nat) returns (a: nat)
    requires i + |open| <= |t| && At(t, i, open)
    requires BracedFrom(t, key, close, i + |open|, SkipSpace(t, i + |open|)) == Some(e)
    ensures BracedSpan(t, open, key, close, i, a, e)
  {
    var lo := i + |open|;
    a := BracedFromSpan(t, key, close, lo, SkipSpace(t, lo), e);
  }

  /** Where BracedFrom found the key: at or after `lo`, no later than `p`,
      and followed by whitespace and the closing delimiter, which ends at
      the match end `e`. */
  lemma {:induction false} BracedFromSpan(t: string, key: string, close: string, lo: nat, p: nat, e: nat) returns (a: nat)
    requires lo <= p <= |t| && SpaceRun(t, lo, p)
    requires BracedFrom(t, key, close, lo, p) == Some(e)
    ensures lo <= a <= p && At(t, a, key)
    ensures a + |key| + |close| <= e && At(t, e - |close|, close)
    ensures SpaceRun(t, a + |key|, e - |close|)
    ensures SpaceRun(t, lo, a)
    decreases p - lo
  {
    if At(t, p, key) && At(t, SkipSpace(t, p + |key|), close) {
      a := p;
    } else {
      assert p > lo && BracedFrom(t, key, close, lo, p - 1) == Some(e);
      a := BracedFromSpan(t, key, close, lo, p - 1, e);
    }
  }

  /** The later rewrites of a key leave a value without the key alone. */
  lemma ValueKept(v: string, k: string)
    requires !Contains(v, k)
    ensures Sub(v, Braced("{{", k, "}}"), v) == v
    ensures Sub(v, Quoted(k), v) == v
    ensures Sub(v, Bare(k), v) == v
  {
    forall pat: Pattern, p | pat.key == k && 0 <= p <= |v| ensures MatchAt(pat, v, p).None? {
      MatchNeedsKey(pat, v, p);
    }
    SubNoMatch(v, Braced("{{", k, "}}"), v, 0);
    SubNoMatch(v, Quoted(k), v, 0);
    SubNoMatch(v, Bare(k), v, 0);
  }

  /** The characters of a braced or quoted placeholder: its delimiters,
      spaces and the key's. */
  lemma PlaceholderChars(f: Form, k: string, t: string)
    requires WordKey(k) && t == Placeholder(f, k)
    ensures f.Mustache? ==> '$' !in t
    ensures f.InQuotes? ==> '$' !in t && '{' !in t
  {
    WordKeyDelimiters(k);
    if f.Mustache? {
      assert forall i :: 0 <= i < |t| ==> t[i] == '{' || t[i] == '}' || t[i] == ' ' || t[i] in k;
    }
    if f.InQuotes? {
      assert forall i :: 0 <= i < |t| ==> t[i] == '"' || t[i] in k;
    }
  }

  /** Every placeholder form of a word key becomes the value, provided the
      value does not itself contain the key (otherwise the later forms of
      the same key rewrite the value too). */
  lemma PlaceholderFilled(f: Form, k: string, v: string)
    requires WordKey(k) && !Contains(v, k)
    ensures RewriteKey(Placeholder(f, k), k, v) == v
  {
    var t := Placeholder(f, k);
    WordKeyDelimiters(k);
    ValueKept(v, k);
    PlaceholderChars(f, k, t);
    match f
    case Dollar(b, a) =>
      BracedPlaceholderMatches(t, "${", "}", b, a, k);
      WholeMatch(t, Braced("${", k, "}"), v);
    case Mustache(b, a) =>
      SubBlocked(t, Braced("${", k, "}"), v);
      BracedPlaceholderMatches(t, "{{", "}}", b, a, k);
      WholeMatch(t, Braced("{{", k, "}}"), v);
    case InQuotes =>
      SubBlocked(t, Braced("${", k, "}"), v);
      SubBlocked(t, Braced("{{", k, "}}"), v);
      assert At(t, 0, "\"" + k + "\"");
      WholeMatch(t, Quoted(k), v);
    case BareWord =>
      SubBlocked(t, Braced("${", k, "}"), v);
      SubBlocked(t, Braced("{{", k, "}}"), v);
      SubBlocked(t, Quoted(k), v);
      assert At(t, 0, k) && Boundary(t, 0) && Boundary(t, |k|);
      WholeMatch(t, Bare(k), v);
  }

  /** Inside a run of word characters the only word boundaries are its
      two ends. */
  lemma WordBoundaries(t: string, p: nat)
    requires WordKey(t) && 0 < p < |t|
    ensures !Boundary(t, p)
  {
  }

  /** The bare form stops at word boundaries: a key inside a longer word
      (JOB_ROLE inside JOB_ROLES) is left alone. */
  lemma LongerWordUntouched(t: string, k: string, v: string)
    requires WordKey(t) && WordKey(k) && |t| > |k|
    ensures RewriteKey(t, k, v) == t
  {
    WordKeyDelimiters(t);
    SubBlocked(t, Braced("${", k, "}"), v);
    SubBlocked(t, Braced("{{", k, "}}"), v);
    SubBlocked(t, Quoted(k), v);
    forall p | 0 <= p <= |t| ensures MatchAt(Bare(k), t, p).None? {
      if 0 < p < |t| {
        WordBoundaries(t, p);
      } else if p == 0 && |k| < |t| {
        WordBoundaries(t, |k|);
      }
    }
    SubNoMatch(t, Bare(k), v, 0);
  }

  // ---------------------------------------------------------------------
  // Spreadsheet batch mode
  // ---------------------------------------------------------------------

  /** A spreadsheet cell: `None` for an empty (NaN) cell. */
  type Row = seq<(string, Option<string>)>

  /** One spreadsheet record as a dict of strings, empty cells as "". */
  function CleanRow(row: Row): (d: Dict)
    ensures |d| == |row|
    ensures forall i :: 0 <= i < |row| ==> d[i].0 == row[i].0
    ensures forall i :: 0 <= i < |row| ==> row[i].1.None? ==> d[i].1 == ""
    ensures forall i :: 0 <= i < |row| ==> row[i].1.Some? ==> d[i].1 == row[i].1.value
  {
    seq(|row|, i requires 0 <= i < |row| => (row[i].0, if row[i].1.Some? then row[i].1.value else ""))
  }

  /** load_excel_vars: every record, in order, as a dict of strings. */
  method LoadExcelVars(records: seq<Row>) returns (cleaned: seq<Dict>)
    ensures |cleaned| == |records|
    ensures forall r :: 0 <= r < |records| ==> cleaned[r] == CleanRow(records[r])
  {
    cleaned := [];
    for r := 0 to |records|
      invariant |cleaned| == r
      invariant forall q :: 0 <= q < r ==> cleaned[q] == CleanRow(records[q])
    {
      cleaned := cleaned + [CleanRow(records[r])];
    }
  }

  /** The file a batch row is written to: its OUTPUT_FILE, else
      filled_<JOB_ROLE>.txt, else filled_<row number>.txt. Only an empty
      OUTPUT_FILE cell gives an empty name, which makes the path the output
      directory itself. */
  function BatchFileName(mapping: Dict, i: nat): (name: string)
    ensures name == "" <==> Get(mapping, "OUTPUT_FILE") == Some("")
  {
    match Get(mapping, "OUTPUT_FILE")
    case Some(f) => f
    case None =>
      match Get(mapping, "JOB_ROLE")
      case Some(role) => "filled_" + role + ".txt"
      case None => "filled_" + NatToString(i) + ".txt"
  }

  /** The OUTPUT_FILE cell decides the name whatever the role; without it
      the role decides, whatever the row number; only a row with neither is
      named by its number. */
  lemma BatchFileNamePrecedence(m: Dict, i: nat, j: nat, role: string)
    ensures Get(m, "OUTPUT_FILE").Some? ==>
      BatchFileName(m, i) == Get(m, "OUTPUT_FILE").value == BatchFileName(Set(m, "JOB_ROLE", role), j)
    ensures Get(m, "OUTPUT_FILE").None? && Get(m, "JOB_ROLE").Some? ==>
      BatchFileName(m, i) == BatchFileName(m, j) == "filled_" + Get(m, "JOB_ROLE").value + ".txt"
    ensures Get(m, "OUTPUT_FILE").None? && Get(m, "JOB_ROLE").None? ==>
      BatchFileName(m, i) == "filled_" + NatToString(i) + ".txt"
  {
    assert "JOB_ROLE" != "OUTPUT_FILE";
  }

  /** Rows that name neither a file nor a role get distinct files. */
  lemma NumberedNamesDistinct(m1: Dict, m2: Dict, i: nat, j: nat)
    requires i != j
    requires Get(m1, "OUTPUT_FILE").None? && Get(m1, "JOB_ROLE").None?
    requires Get(m2, "OUTPUT_FILE").None? && Get(m2, "JOB_ROLE").None?
    ensures BatchFileName(m1, i) != BatchFileName(m2, j)
  {
    var a, b := NatToString(i), NatToString(j);
    if BatchFileName(m1, i) == BatchFileName(m2, j) {
      var n1, n2 := "filled_" + a + ".txt", "filled_" + b + ".txt";
      assert |a| == |b|;
      assert a == n1[7..7 + |a|] == n2[7..7 + |b|] == b;
      NatToStringValue(i);
      NatToStringValue(j);
    }
  }

  /** The batch loop: one (file name, filled text) write per row, rows
      numbered from 1. Writing to an empty name (the output directory)
      raises, so the batch stops at the first row whose OUTPUT_FILE cell is
      empty, with the writes of the rows before it done. */
  method BatchOutputs(templateText: string, rows: seq<Dict>) returns (writes: seq<(string, string)>, failed: bool)
    requires forall r :: 0 <= r < |rows| ==> ValuesLiteral(rows[r])
    ensures |writes| <= |rows|
    ensures forall r :: 0 <= r < |writes| ==>
      writes[r] == (BatchFileName(rows[r], r + 1), FillSpec(templateText, rows[r])) && OutputNamed(rows[r])
    ensures failed <==> |writes| < |rows|
    ensures failed ==> !OutputNamed(rows[|writes|])
  {
    writes := [];
    failed := false;
    var r := 0;
    while r < |rows|
      invariant r <= |rows| && |writes| == r
      invariant Written(templateText, rows, writes)
    {
      var w := BatchRow(templateText, rows[r], r + 1);
      if w.0 == "" {
        failed := true;
        return;
      }
      WrittenStep(templateText, rows, writes, w);
      writes := writes + [w];
      r := r + 1;
    }
  }

  /** The writes so far are those of the first rows, none of them to an
      empty name. */
  predicate Written(templateText: string, rows: seq<Dict>, writes: seq<(string, string)>) {
    |writes| <= |rows| &&
    forall q :: 0 <= q < |writes| ==> WriteOf(templateText, rows[q], q + 1, writes[q])
  }

  /** `w` is the write of the row numbered `n`, to a non-empty name. */
  predicate WriteOf(templateText: string, row: Dict, n: nat, w: (string, string)) {
    w == (BatchFileName(row, n), FillSpec(templateText, row)) && OutputNamed(row)
  }

  lemma WrittenStep(templateText: string, rows: seq<Dict>, writes: seq<(string, string)>, w: (string, string))
    requires Written(templateText, rows, writes) && |writes| < |rows|
    requires WriteOf(templateText, rows[|writes|], |writes| + 1, w)
    ensures Written(templateText, rows, writes + [w])
  {
    var n := writes + [w];
    forall q | 0 <= q < |n|
      ensures WriteOf(templateText, rows[q], q + 1, n[q])
    {
      if q < |writes| {
        assert n[q] == writes[q];
      } else {
        assert n[q] == w;
      }
    }
  }

  /** The row's file name is not empty: it has no empty OUTPUT_FILE cell. */
  predicate OutputNamed(row: Dict) {
    Get(row, "OUTPUT_FILE") != Some("")
  }

  /** One pass of the batch loop: the row's file name and filled text. */
  method BatchRow(templateText: string, row: Dict, n: nat) returns (w: (string, string))
    requires ValuesLiteral(row)
    ensures w == (BatchFileName(row, n), FillSpec(templateText, row))
    ensures w.0 != "" <==> OutputNamed(row)
  {
    var result := Fill(templateText, row);
    w := (BatchFileName(row, n), result);
  }
}
