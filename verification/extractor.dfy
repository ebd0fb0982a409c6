/** `_extract_code_from_result`: recovering the generated test code from the
    reviewer's free-form answer, by five strategies tried in order.

    Each regular expression is modelled by a match predicate saying which
    positions form a match, and a search function returning the match that
    Python's backtracking `re.search` reports: the leftmost start, then the
    longest greedy and the shortest lazy choice. A `\s*` followed by a
    non-whitespace literal can only end where the whitespace run ends, so
    the predicates place such literals at `SpaceEnd`.

    `json.loads` is a parameter: every text handed to it starts with `{`, so
    it either fails or yields an object, whose `final_code` member is a JSON
    string or some other value.
 */
module Extractor {
  import opened Text
  import opened Scan
  import opened Rewrite

  const JsonOpen: string := "```json"
  const KeyLit: string := "\"final_code\""
  const FieldName: string := "final_code"
  const PyOpen: string := "```python\n"
  const PyTag: string := "```python"
  const ImportPytest: string := "import pytest"
  const DefTest: string := "def test_"

  /** The value of the `final_code` member as far as the extractor cares. */
  datatype Json = JString(text: string) | JOther

  /** What `json.loads` gives for a text that starts with `{`. */
  datatype Decoded = Malformed | Object(fields: map<string, Json>)

  /** One strategy's outcome: code, nothing (try the next strategy), or an
      exception that abandons the JSON strategies. */
  datatype Attempt = Hit(code: string) | Miss | Fault

  predicate IsQuote(c: char) { c == '"' || c == '\'' }

  predicate NotBrace(c: char) { c != '{' && c != '}' }

  predicate NotQuote(c: char) { !IsQuote(c) }

  // ---------------------------------------------------------------------
  // Strategy 1: r'```json\s*\n?\{.*?\}\s*\n?```' (DOTALL)
  // ---------------------------------------------------------------------

  /** The opening: the tag, whitespace, then `{` (the `\n?` can only match
      inside the whitespace run). */
  predicate JsonOpensAt(s: string, p: nat) {
    At(s, p, JsonOpen) && SpaceEnd(s, p + 7) < |s| && s[SpaceEnd(s, p + 7)] == '{'
  }

  /** A `}` followed by whitespace and a fence. */
  predicate JsonClosesAt(s: string, k: nat) {
    k < |s| && s[k] == '}' && At(s, SpaceEnd(s, k + 1), Fence)
  }

  /** A match starting at `p` whose lazy `.*?` stops at the `}` at `k`. */
  predicate JsonFenceMatch(s: string, p: nat, k: nat) {
    JsonOpensAt(s, p) && SpaceEnd(s, p + 7) < k && JsonClosesAt(s, k)
  }

  /** Where a match ending with the `}` at `k` ends. */
  function JsonFenceEnd(s: string, k: nat): nat
    requires JsonClosesAt(s, k)
  {
    SpaceEnd(s, k + 1) + 3
  }

  function FirstJsonClose(s: string, i: nat): (r: Option<nat>)
    ensures r.Some? ==> i <= r.value && JsonClosesAt(s, r.value)
    ensures r.Some? ==> forall k: nat :: i <= k < r.value ==> !JsonClosesAt(s, k)
    ensures r.None? ==> forall k: nat :: i <= k ==> !JsonClosesAt(s, k)
  {
    var closes := (k: nat) => JsonClosesAt(s, k);
    var r := FirstFrom(i, |s|, closes);
    assert r.Some? ==> forall k: nat :: i <= k < r.value ==> !JsonClosesAt(s, k) by {
      if r.Some? {
        forall k: nat | i <= k < r.value ensures !JsonClosesAt(s, k) {
          assert !closes(k);
        }
      }
    }
    assert r.None? ==> forall k: nat :: i <= k ==> !JsonClosesAt(s, k) by {
      if r.None? {
        forall k: nat | i <= k ensures !JsonClosesAt(s, k) {
          if k <= |s| {
            assert !closes(k);
          }
        }
      }
    }
    r
  }

  predicate JsonMatchesAt(s: string, p: nat) {
    JsonOpensAt(s, p) && FirstJsonClose(s, SpaceEnd(s, p + 7) + 1).Some?
  }

  lemma NoJsonMatchAt(s: string, p: nat, k: nat)
    requires !JsonMatchesAt(s, p)
    ensures !JsonFenceMatch(s, p, k)
  {
    if JsonOpensAt(s, p) {
      assert FirstJsonClose(s, SpaceEnd(s, p + 7) + 1).None?;
    }
  }

  /** The match `re.search` reports, as (start, closing brace). */
  function JsonFenceSearch(s: string): (r: Option<(nat, nat)>)
    ensures r.Some? ==> JsonFenceMatch(s, r.value.0, r.value.1)
    ensures r.Some? ==> forall p: nat, k: nat :: p < r.value.0 ==> !JsonFenceMatch(s, p, k)
    ensures r.Some? ==> forall k: nat :: JsonFenceMatch(s, r.value.0, k) ==> r.value.1 <= k
    ensures r.None? ==> forall p: nat, k: nat :: !JsonFenceMatch(s, p, k)
  {
    var matches := (p: nat) => JsonMatchesAt(s, p);
    var first := FirstFrom(0, |s|, matches);
    if first.None? then
      assert forall p: nat, k: nat :: !JsonFenceMatch(s, p, k) by {
        forall p: nat, k: nat ensures !JsonFenceMatch(s, p, k) {
          if p <= |s| {
            assert !matches(p);
            NoJsonMatchAt(s, p, k);
          }
        }
      }
      None
    else
      var p := first.value;
      assert forall q: nat, k: nat :: q < p ==> !JsonFenceMatch(s, q, k) by {
        forall q: nat, k: nat | q < p ensures !JsonFenceMatch(s, q, k) {
          assert !matches(q);
          NoJsonMatchAt(s, q, k);
        }
      }
      var k := FirstJsonClose(s, SpaceEnd(s, p + 7) + 1).value;
      Some((p, k))
  }

  // ---------------------------------------------------------------------
  // Strategy 2: r'\{[^{}]*"final_code"[^{}]*\}'
  // ---------------------------------------------------------------------

  /** A brace-free object text `s[p..r + 1]` mentioning the quoted key. */
  predicate BraceMatch(s: string, p: nat, r: nat) {
    p < r < |s| && s[p] == '{' && s[r] == '}' && AllIn(s, p + 1, r, NotBrace)
    && Contains(s[p + 1..r], KeyLit)
  }

  predicate BraceMatchesAt(s: string, p: nat) {
    p < |s| && s[p] == '{'
    && var r := RunEnd(s, p + 1, NotBrace);
       r < |s| && s[r] == '}' && Contains(s[p + 1..r], KeyLit)
  }

  /** A match from `p` can only end at the first brace after `p`. */
  lemma BraceMatchEnd(s: string, p: nat, r: nat)
    requires p < |s| && s[p] == '{'
    ensures BraceMatch(s, p, r) ==> r == RunEnd(s, p + 1, NotBrace)
  {
    var e := RunEnd(s, p + 1, NotBrace);
    if p + 1 <= r < e {
      assert NotBrace(s[r]);
    } else if e < r && e < |s| {
      assert !NotBrace(s[e]);
    }
  }

  /** The match `re.search` reports, as (opening brace, closing brace). */
  function BraceSearch(s: string): (r: Option<(nat, nat)>)
    ensures r.Some? ==> BraceMatch(s, r.value.0, r.value.1)
    ensures r.Some? ==> forall p: nat, e: nat :: p < r.value.0 ==> !BraceMatch(s, p, e)
    ensures r.Some? ==> forall e: nat :: BraceMatch(s, r.value.0, e) ==> e == r.value.1
    ensures r.None? ==> forall p: nat, e: nat :: !BraceMatch(s, p, e)
  {
    var matches := (p: nat) => BraceMatchesAt(s, p);
    var first := FirstFrom(0, |s|, matches);
    if first.None? then
      assert forall p: nat, e: nat :: !BraceMatch(s, p, e) by {
        forall p: nat, e: nat ensures !BraceMatch(s, p, e) {
          if p < |s| && s[p] == '{' {
            assert !matches(p);
            BraceMatchEnd(s, p, e);
          }
        }
      }
      None
    else
      var p := first.value;
      assert forall q: nat, e: nat :: q < p ==> !BraceMatch(s, q, e) by {
        forall q: nat, e: nat | q < p ensures !BraceMatch(s, q, e) {
          if s[q] == '{' {
            assert !matches(q);
            BraceMatchEnd(s, q, e);
          }
        }
      }
      var e := RunEnd(s, p + 1, NotBrace);
      assert forall e': nat :: BraceMatch(s, p, e') ==> e' == e by {
        forall e': nat ensures BraceMatch(s, p, e') ==> e' == e {
          BraceMatchEnd(s, p, e');
        }
      }
      Some((p, e))
  }

  // ---------------------------------------------------------------------
  // Strategy 3: r'"final_code"\s*:\s*["\']+(.*?)["\']+\s*[,}]' (DOTALL)
  // ---------------------------------------------------------------------

  /** Where the opening quote run starts: after the key, whitespace, a
      colon and whitespace. */
  function ValueOpen(s: string, p: nat): (r: Option<nat>)
    ensures r.Some? ==> p + 12 < r.value <= |s|
  {
    if !At(s, p, KeyLit) then None
    else
      var c := SpaceEnd(s, p + 12);
      if c < |s| && s[c] == ':' then Some(SpaceEnd(s, c + 1)) else None
  }

  /** A closing quote run at `h`: quotes, then whitespace, then `,` or `}`.
      Only the whole run can be followed by the whitespace and the
      delimiter. */
  predicate ValueClosesAt(s: string, h: nat) {
    h < |s| && IsQuote(s[h])
    && var e := SpaceEnd(s, RunEnd(s, h, IsQuote));
       e < |s| && (s[e] == ',' || s[e] == '}')
  }

  /** A match at `p` whose group is `s[g..h]`. */
  predicate ValueMatch(s: string, p: nat, g: nat, h: nat) {
    ValueOpen(s, p).Some? && ValueOpen(s, p).value < g <= h
    && AllIn(s, ValueOpen(s, p).value, g, IsQuote) && ValueClosesAt(s, h)
  }

  function FirstValueClose(s: string, i: nat): (r: Option<nat>)
    ensures r.Some? ==> i <= r.value && ValueClosesAt(s, r.value)
    ensures r.Some? ==> forall h: nat :: i <= h < r.value ==> !ValueClosesAt(s, h)
    ensures r.None? ==> forall h: nat :: i <= h ==> !ValueClosesAt(s, h)
  {
    var closes := (h: nat) => ValueClosesAt(s, h);
    var r := FirstFrom(i, |s|, closes);
    assert r.Some? ==> forall h: nat :: i <= h < r.value ==> !ValueClosesAt(s, h) by {
      if r.Some? {
        forall h: nat | i <= h < r.value ensures !ValueClosesAt(s, h) {
          assert !closes(h);
        }
      }
    }
    assert r.None? ==> forall h: nat :: i <= h ==> !ValueClosesAt(s, h) by {
      if r.None? {
        forall h: nat | i <= h ensures !ValueClosesAt(s, h) {
          if h <= |s| {
            assert !closes(h);
          }
        }
      }
    }
    r
  }

  /** Inside a quote run, every position closes alike: the run ends at the
      same place. */
  lemma QuoteRunInside(s: string, a: nat, h: nat)
    requires a <= |s| && a <= h < RunEnd(s, a, IsQuote)
    ensures RunEnd(s, h, IsQuote) == RunEnd(s, a, IsQuote)
  {
    var b := RunEnd(s, a, IsQuote);
    RunEndUnique(s, h, b, IsQuote);
  }

  /** The group `re.search` chooses for a match starting at `p`: the
      longest opening quote run that lets the rest match, then the shortest
      group. With the whole opening run taken the group is up to the first
      closing run; failing that, the run gives back one quote, which closes
      at once when the run is followed by the delimiter, leaving an empty
      group. */
  function ValueAt(s: string, p: nat): (r: Option<(nat, nat)>)
    ensures r.Some? ==> ValueMatch(s, p, r.value.0, r.value.1)
    ensures r.Some? ==> forall g: nat, h: nat :: ValueMatch(s, p, g, h) ==> g <= r.value.0
    ensures r.Some? ==> forall h: nat :: ValueMatch(s, p, r.value.0, h) ==> r.value.1 <= h
    ensures r.None? ==> forall g: nat, h: nat :: !ValueMatch(s, p, g, h)
  {
    var open := ValueOpen(s, p);
    if open.None? then None
    else
      var a := open.value;
      var b := RunEnd(s, a, IsQuote);
      ValueGroupStartBound(s, p);
      if b == a then
        None
      else
        var full := FirstValueClose(s, b);
        if full.Some? then
          Some((b, full.value))
        else
          ValueNoFullRun(s, p);
          if b - a >= 2 && ValueClosesAt(s, b - 1) then
            Some((b - 1, b - 1))
          else
            ValueNoMatch(s, p);
            None
  }

  /** The opening run ends the group start's range. */
  lemma ValueGroupStartBound(s: string, p: nat)
    requires ValueOpen(s, p).Some?
    ensures var a := ValueOpen(s, p).value;
      forall g: nat, h: nat :: ValueMatch(s, p, g, h) ==> g <= RunEnd(s, a, IsQuote)
  {
    var a := ValueOpen(s, p).value;
    var b := RunEnd(s, a, IsQuote);
    forall g: nat, h: nat ensures ValueMatch(s, p, g, h) ==> g <= b {
      if b < g && b < |s| {
        assert !IsQuote(s[b]);
      }
    }
  }

  /** With no closing run after the whole opening run, the whole run cannot
      be the opening. */
  lemma ValueNoFullRun(s: string, p: nat)
    requires ValueOpen(s, p).Some?
    requires FirstValueClose(s, RunEnd(s, ValueOpen(s, p).value, IsQuote)).None?
    ensures forall h: nat :: !ValueMatch(s, p, RunEnd(s, ValueOpen(s, p).value, IsQuote), h)
  {
    var b := RunEnd(s, ValueOpen(s, p).value, IsQuote);
    forall h: nat ensures !ValueMatch(s, p, b, h) {
      if b <= h {
        assert !ValueClosesAt(s, h);
      }
    }
  }

  /** When the opening run is not followed by the delimiter either, there is
      no match at `p`. */
  lemma ValueNoMatch(s: string, p: nat)
    requires ValueOpen(s, p).Some?
    requires var a := ValueOpen(s, p).value; var b := RunEnd(s, a, IsQuote);
      FirstValueClose(s, b).None? && !(b - a >= 2 && ValueClosesAt(s, b - 1))
    ensures forall g: nat, h: nat :: !ValueMatch(s, p, g, h)
  {
    var a := ValueOpen(s, p).value;
    var b := RunEnd(s, a, IsQuote);
    ValueGroupStartBound(s, p);
    forall g: nat, h: nat ensures !ValueMatch(s, p, g, h) {
      if a < g < b && g <= h < b {
        QuoteRunInside(s, a, h);
        QuoteRunInside(s, a, b - 1);
      } else if b <= h {
        assert !ValueClosesAt(s, h);
      }
    }
  }

  predicate ValueMatchesAt(s: string, p: nat) { ValueAt(s, p).Some? }

  /** The match `re.search` reports, as (start, group start, group end). */
  function ValueSearch(s: string): (r: Option<(nat, nat, nat)>)
    ensures r.Some? ==> ValueMatch(s, r.value.0, r.value.1, r.value.2)
    ensures r.Some? ==> forall p: nat, g: nat, h: nat :: p < r.value.0 ==> !ValueMatch(s, p, g, h)
    ensures r.Some? ==> forall g: nat, h: nat :: ValueMatch(s, r.value.0, g, h) ==> g <= r.value.1
    ensures r.Some? ==> forall h: nat :: ValueMatch(s, r.value.0, r.value.1, h) ==> r.value.2 <= h
    ensures r.None? ==> forall p: nat, g: nat, h: nat :: !ValueMatch(s, p, g, h)
  {
    var matches := (p: nat) => ValueMatchesAt(s, p);
    var first := FirstFrom(0, |s|, matches);
    if first.None? then
      assert forall p: nat, g: nat, h: nat :: !ValueMatch(s, p, g, h) by {
        forall p: nat, g: nat, h: nat ensures !ValueMatch(s, p, g, h) {
          if p <= |s| {
            assert !matches(p);
          }
        }
      }
      None
    else
      var p := first.value;
      assert forall q: nat, g: nat, h: nat :: q < p ==> !ValueMatch(s, q, g, h) by {
        forall q: nat, g: nat, h: nat | q < p ensures !ValueMatch(s, q, g, h) {
          assert !matches(q);
        }
      }
      var gh := ValueAt(s, p).value;
      Some((p, gh.0, gh.1))
  }

  // ---------------------------------------------------------------------
  // Strategy 4: r'```python\n(.*?)```' (DOTALL)
  // ---------------------------------------------------------------------

  /** A match at `p` whose group ends at the fence at `k`. */
  predicate PyBlockMatch(s: string, p: nat, k: nat) {
    At(s, p, PyOpen) && p + 10 <= k && At(s, k, Fence)
  }

  function FirstFence(s: string, i: nat): (r: Option<nat>)
    ensures r.Some? ==> i <= r.value && At(s, r.value, Fence)
    ensures r.Some? ==> forall k: nat :: i <= k < r.value ==> !At(s, k, Fence)
    ensures r.None? ==> forall k: nat :: i <= k ==> !At(s, k, Fence)
  {
    var fence := (k: nat) => At(s, k, Fence);
    var r := FirstFrom(i, |s|, fence);
    assert r.Some? ==> forall k: nat :: i <= k < r.value ==> !At(s, k, Fence) by {
      if r.Some? {
        forall k: nat | i <= k < r.value ensures !At(s, k, Fence) {
          assert !fence(k);
        }
      }
    }
    assert r.None? ==> forall k: nat :: i <= k ==> !At(s, k, Fence) by {
      if r.None? {
        forall k: nat | i <= k ensures !At(s, k, Fence) {
          if k <= |s| {
            assert !fence(k);
          }
        }
      }
    }
    r
  }

  predicate PyBlockMatchesAt(s: string, p: nat) {
    At(s, p, PyOpen) && FirstFence(s, p + 10).Some?
  }

  /** The match `re.search` reports, as (start, closing fence). */
  function PyBlockSearch(s: string): (r: Option<(nat, nat)>)
    ensures r.Some? ==> PyBlockMatch(s, r.value.0, r.value.1)
    ensures r.Some? ==> forall p: nat, k: nat :: p < r.value.0 ==> !PyBlockMatch(s, p, k)
    ensures r.Some? ==> forall k: nat :: PyBlockMatch(s, r.value.0, k) ==> r.value.1 <= k
    ensures r.None? ==> forall p: nat, k: nat :: !PyBlockMatch(s, p, k)
  {
    var matches := (p: nat) => PyBlockMatchesAt(s, p);
    var first := FirstFrom(0, |s|, matches);
    if first.None? then
      assert forall p: nat, k: nat :: !PyBlockMatch(s, p, k) by {
        forall p: nat, k: nat ensures !PyBlockMatch(s, p, k) {
          if p <= |s| {
            assert !matches(p);
          }
        }
      }
      None
    else
      var p := first.value;
      assert forall q: nat, k: nat :: q < p ==> !PyBlockMatch(s, q, k) by {
        forall q: nat, k: nat | q < p ensures !PyBlockMatch(s, q, k) {
          assert !matches(q);
        }
      }
      Some((p, FirstFence(s, p + 10).value))
  }

  // ---------------------------------------------------------------------
  // Clean-up of the fenced JSON text, and unescaping of the code
  // ---------------------------------------------------------------------

  /** `re.sub(r'```json\s*\n?', '', t)`: every tag is removed together with
      the whitespace after it. */
  function SubJsonOpen(t: string): string
    decreases |t|
  {
    if |t| == 0 then []
    else if At(t, 0, JsonOpen) then SubJsonOpen(t[SpaceEnd(t, 7)..])
    else [t[0]] + SubJsonOpen(t[1..])
  }

  /** `re.sub(r'\n?```', '', t)`: every fence is removed, with the newline
      just before it. */
  function SubFenceClose(t: string): string
    decreases |t|
  {
    if |t| == 0 then []
    else if t[0] == '\n' && At(t, 1, Fence) then SubFenceClose(t[4..])
    else if At(t, 0, Fence) then SubFenceClose(t[3..])
    else [t[0]] + SubFenceClose(t[1..])
  }

  /** The text strategy 1 hands to `json.loads`. */
  function CleanJson(t: string): string {
    SubFenceClose(SubJsonOpen(t))
  }

  predicate NoTick(x: string) { forall i :: 0 <= i < |x| ==> x[i] != '`' }

  lemma AtNeedsHead(t: string, i: nat, pat: string)
    requires |pat| > 0 && i < |t| && t[i] != pat[0]
    ensures !At(t, i, pat)
  {
    if i + |pat| <= |t| {
      assert t[i..i + |pat|][0] == t[i];
    }
  }

  lemma {:induction false} SubJsonOpenKeeps(x: string, y: string)
    requires NoTick(x)
    ensures SubJsonOpen(x + y) == x + SubJsonOpen(y)
    decreases |x|
  {
    if x == [] {
      assert x + y == y;
    } else {
      var t := x + y;
      AtNeedsHead(t, 0, JsonOpen);
      assert t[1..] == x[1..] + y;
      SubJsonOpenKeeps(x[1..], y);
    }
  }

  lemma {:induction false} SubFenceCloseKeeps(x: string, y: string)
    requires NoTick(x) && (|x| > 0 ==> x[|x| - 1] != '\n')
    ensures SubFenceClose(x + y) == x + SubFenceClose(y)
    decreases |x|
  {
    if x == [] {
      assert x + y == y;
    } else {
      var t := x + y;
      AtNeedsHead(t, 0, Fence);
      if |x| > 1 {
        assert t[1] == x[1];
        AtNeedsHead(t, 1, Fence);
      } else {
        assert t[0] == x[|x| - 1];
      }
      assert t[1..] == x[1..] + y;
      SubFenceCloseKeeps(x[1..], y);
    }
  }

  /** Cleaning recovers the object text from its fenced form. */
  lemma CleanJsonOfWrapped(ws: string, body: string)
    requires AllIn(ws, 0, |ws|, IsSpace)
    requires |body| > 0 && !IsSpace(body[0]) && body[|body| - 1] != '\n' && NoTick(body)
    ensures CleanJson(JsonOpen + ws + body + "\n" + Fence) == body
  {
    var tail := "\n" + Fence;
    assert JsonOpen + ws + body + "\n" + Fence == JsonOpen + ws + (body + tail);
    OpenTagDropped(ws, body + tail);
    assert SubJsonOpen(body + tail) == body + tail by {
      SubJsonOpenKeeps(body, tail);
      assert SubJsonOpen(tail) == tail;
    }
    assert SubFenceClose(body + tail) == body by {
      SubFenceCloseKeeps(body, tail);
      assert SubFenceClose(tail) == [];
      assert body + [] == body;
    }
  }

  /** The opening tag and the whitespace after it are dropped. */
  lemma OpenTagDropped(ws: string, rest: string)
    requires AllIn(ws, 0, |ws|, IsSpace)
    requires |rest| > 0 && !IsSpace(rest[0])
    ensures SubJsonOpen(JsonOpen + ws + rest) == SubJsonOpen(rest)
  {
    var t := JsonOpen + ws + rest;
    OpenTagLayout(t, ws, rest);
  }

  /** Where the tag, the whitespace and the rest sit. */
  lemma OpenTagLayout(t: string, ws: string, rest: string)
    requires t == JsonOpen + ws + rest
    requires AllIn(ws, 0, |ws|, IsSpace)
    requires |rest| > 0 && !IsSpace(rest[0])
    ensures At(t, 0, JsonOpen) && SpaceEnd(t, 7) == 7 + |ws| && t[7 + |ws|..] == rest
  {
    var n := |ws|;
    assert t[..7] == JsonOpen;
    assert AllIn(t, 7, 7 + n, IsSpace) by {
      forall k | 7 <= k < 7 + n ensures IsSpace(t[k]) {
        assert t[k] == ws[k - 7];
      }
    }
    assert t[7 + n] == rest[0];
    RunEndUnique(t, 7, 7 + n, IsSpace);
    assert t[7 + n..] == rest;
  }

  /** `code.replace('\\n', '\n').replace('\\"', '"')` of strategies 1 and 3. */
  function UnescapeFenced(v: string): string {
    Replace(Replace(v, "\\n", "\n"), "\\\"", "\"")
  }

  /** `code.replace('\\n', '\n')` of strategy 2. */
  function UnescapeBraced(v: string): string {
    Replace(v, "\\n", "\n")
  }

  /** Strategy 3 also turns `\'` into `'`. */
  function UnescapeValue(v: string): string {
    Replace(UnescapeFenced(v), "\\'", "'")
  }

  lemma NoHeadNoContains(s: string, pat: string)
    requires |pat| > 0 && pat[0] !in s
    ensures !Contains(s, pat)
  {
    forall i: nat | i <= |s| ensures !At(s, i, pat) {
      if i < |s| {
        AtNeedsHead(s, i, pat);
      }
    }
  }

  /** Text without backslashes is left alone by every unescaping. */
  lemma UnescapePlain(v: string)
    requires '\\' !in v
    ensures UnescapeBraced(v) == v && UnescapeFenced(v) == v && UnescapeValue(v) == v
  {
    NoHeadNoContains(v, "\\n");
    ReplaceAbsent(v, "\\n", "\n");
    NoHeadNoContains(v, "\\\"");
    ReplaceAbsent(v, "\\\"", "\"");
    NoHeadNoContains(v, "\\'");
    ReplaceAbsent(v, "\\'", "'");
  }

  /** An escaped quote is unescaped by strategies 1 and 3 but kept by
      strategy 2; an escaped apostrophe only by strategy 3. */
  lemma UnescapeDiffers()
    ensures UnescapeFenced("\\\"") == "\""
    ensures UnescapeBraced("\\\"") == "\\\""
    ensures UnescapeFenced("\\'") == "\\'"
    ensures UnescapeValue("\\'") == "'"
    ensures UnescapeBraced("\\n") == "\n"
  {
    ReplaceTwo('\\', '"', "\\n", "\n");
    ReplaceTwo('\\', '\'', "\\n", "\n");
    ReplaceTwo('\\', '\'', "\\\"", "\"");
    ReplaceHit("\\\"", "\"");
    ReplaceHit("\\'", "'");
    ReplaceHit("\\n", "\n");
  }

  /** A two-character text that differs from `pat` is kept. */
  lemma ReplaceTwo(a: char, b: char, pat: string, repl: string)
    requires |pat| == 2 && [a, b] != pat
    ensures Replace([a, b], pat, repl) == [a, b]
  {
    var t := [a, b];
    assert t[..2] == t;
    assert t[1..] == [b];
  }

  /** A text that is exactly `pat` is replaced by `repl`. */
  lemma ReplaceHit(pat: string, repl: string)
    requires |pat| > 0
    ensures Replace(pat, pat, repl) == repl
  {
    assert pat[..|pat|] == pat;
    assert pat[|pat|..] == [];
  }

  // ---------------------------------------------------------------------
  // Strategy 5: the bare-code fallback
  // ---------------------------------------------------------------------

  /** `re.sub(r'```json.*?```', '', t, flags=re.DOTALL)`. */
  function SubJsonBlock(t: string): string
    decreases |t|
  {
    if |t| == 0 then []
    else if At(t, 0, JsonOpen) && FirstFence(t, 7).Some? then
      SubJsonBlock(t[FirstFence(t, 7).value + 3..])
    else [t[0]] + SubJsonBlock(t[1..])
  }

  lemma ContainsTail(t: string, pat: string)
    requires |t| > 0 && Contains(t[1..], pat)
    ensures Contains(t, pat)
  {
    var i: nat :| i <= |t[1..]| && At(t[1..], i, pat);
    AtTail(t, i, pat);
  }

  /** Without fences there is no block to remove. */
  lemma {:induction false} SubJsonBlockAbsent(t: string)
    requires !Contains(t, Fence)
    ensures SubJsonBlock(t) == t
    decreases |t|
  {
    if |t| > 0 {
      assert !At(t, 0, Fence);
      if t[0] != '`' {
        AtNeedsHead(t, 0, JsonOpen);
      } else {
        assert forall k: nat :: !At(t, k, Fence);
      }
      if Contains(t[1..], Fence) {
        ContainsTail(t, Fence);
      }
      SubJsonBlockAbsent(t[1..]);
    }
  }

  predicate HasMarker(s: string) {
    Contains(s, ImportPytest) || Contains(s, DefTest)
  }

  /** `result.replace("```python", "").replace("```", "")`, then the block
      removal, then `strip()`. */
  function MarkerFallback(s: string): (r: string)
    ensures !Contains(r, Fence)
  {
    var x := Replace(Replace(s, PyTag, ""), Fence, "");
    RemoveFencesLeavesNone(Replace(s, PyTag, ""));
    SubJsonBlockAbsent(x);
    StripKeepsAbsent(x, Fence);
    Strip(SubJsonBlock(x))
  }

  /** Strip cannot create an occurrence. */
  lemma StripKeepsAbsent(x: string, pat: string)
    requires !Contains(x, pat)
    ensures !Contains(Strip(x), pat)
  {
    var b := StripSpan(x, IsSpace);
    forall i: nat | i <= |Strip(x)| ensures !At(Strip(x), i, pat) {
      AtSlice(x, b.0, b.1, i, pat);
    }
  }

  lemma MarkerSurvives(s: string, m: string)
    requires m == ImportPytest || m == DefTest
    requires Contains(s, m)
    ensures Contains(MarkerFallback(s), m)
  {
    var t: nat :| t <= |s| && At(s, t, m);
    ReplaceKeepsOccurrence(s, t, m, PyTag, "");
    var x1 := Replace(s, PyTag, "");
    var t1: nat :| t1 <= |x1| && At(x1, t1, m);
    ReplaceKeepsOccurrence(x1, t1, m, Fence, "");
    var x2 := Replace(x1, Fence, "");
    RemoveFencesLeavesNone(x1);
    SubJsonBlockAbsent(x2);
    var t2: nat :| t2 <= |x2| && At(x2, t2, m);
    StripKeepsOccurrence(x2, t2, m, IsSpace);
  }

  /** The fallback keeps the marker that triggered it, so its result is
      never empty. */
  lemma MarkerFallbackKeepsMarker(s: string)
    requires HasMarker(s)
    ensures HasMarker(MarkerFallback(s)) && |MarkerFallback(s)| > 0
  {
    if Contains(s, ImportPytest) {
      MarkerSurvives(s, ImportPytest);
    } else {
      MarkerSurvives(s, DefTest);
    }
    var r := MarkerFallback(s);
    assert |r| > 0 by {
      if Contains(r, ImportPytest) {
        var i: nat :| i <= |r| && At(r, i, ImportPytest);
      } else {
        var i: nat :| i <= |r| && At(r, i, DefTest);
      }
    }
  }

  /** Applying the fallback to its own result changes nothing. */
  lemma MarkerFallbackIdempotent(s: string)
    ensures MarkerFallback(MarkerFallback(s)) == MarkerFallback(s)
  {
    var r := MarkerFallback(s);
    assert !Contains(r, PyTag) by {
      forall i: nat | i <= |r| ensures !At(r, i, PyTag) {
        assert !At(r, i, Fence);
        if i + 9 <= |r| {
          assert r[i..i + 9][..3] == r[i..i + 3];
        }
      }
    }
    ReplaceAbsent(r, PyTag, "");
    ReplaceAbsent(r, Fence, "");
    SubJsonBlockAbsent(r);
    var x := Replace(Replace(s, PyTag, ""), Fence, "");
    RemoveFencesLeavesNone(Replace(s, PyTag, ""));
    SubJsonBlockAbsent(x);
    StripByIdempotent(x, IsSpace);
  }

  // ---------------------------------------------------------------------
  // The strategies in order
  // ---------------------------------------------------------------------

  /** `data["final_code"]` when `"final_code" in data`. */
  function FieldOf(d: Decoded): (r: Option<Json>)
    ensures r.Some? <==> d.Object? && FieldName in d.fields
    ensures r.Some? ==> r.value == d.fields[FieldName]
  {
    if d.Object? && FieldName in d.fields then Some(d.fields[FieldName]) else None
  }

  /** The text of the strategy-1 match, fences included. */
  function JsonFenceText(s: string): (r: Option<string>)
    ensures r.Some? <==> JsonFenceSearch(s).Some?
    ensures r.Some? ==> var m := JsonFenceSearch(s).value; r.value == s[m.0..JsonFenceEnd(s, m.1)]
  {
    match JsonFenceSearch(s)
    case None => None
    case Some(m) => Some(s[m.0..JsonFenceEnd(s, m.1)])
  }

  /** Strategy 1: decode the cleaned fenced object. A string member is the
      code; a missing member or a decoding error passes to strategy 2; a
      member of another type raises, which skips strategy 2. */
  function FromJsonFence(s: string, decode: string -> Decoded): (a: Attempt)
    ensures JsonFenceSearch(s).None? ==> a == Miss
    ensures JsonFenceSearch(s).Some? ==>
      var f := FieldOf(decode(CleanJson(JsonFenceText(s).value)));
      && (f.None? ==> a == Miss)
      && (f == Some(JOther) ==> a == Fault)
      && (f.Some? && f.value.JString? ==> a == Hit(Strip(UnescapeFenced(f.value.text))))
    ensures a.Hit? ==> Strip(a.code) == a.code
  {
    match JsonFenceText(s)
    case None => Miss
    case Some(text) =>
      match FieldOf(decode(CleanJson(text)))
      case None => Miss
      case Some(JOther) => Fault
      case Some(JString(v)) =>
        StripByIdempotent(UnescapeFenced(v), IsSpace);
        Hit(Strip(UnescapeFenced(v)))
  }

  /** Strategy 2: decode the brace-free object that mentions the key. */
  function FromBraces(s: string, decode: string -> Decoded): (a: Attempt)
    ensures BraceSearch(s).None? ==> a == Miss
    ensures BraceSearch(s).Some? ==>
      var m := BraceSearch(s).value;
      var f := FieldOf(decode(s[m.0..m.1 + 1]));
      && (f.None? ==> a == Miss)
      && (f == Some(JOther) ==> a == Fault)
      && (f.Some? && f.value.JString? ==> a == Hit(Strip(UnescapeBraced(f.value.text))))
    ensures a.Hit? ==> Strip(a.code) == a.code
  {
    match BraceSearch(s)
    case None => Miss
    case Some(m) =>
      match FieldOf(decode(s[m.0..m.1 + 1]))
      case None => Miss
      case Some(JOther) => Fault
      case Some(JString(v)) =>
        StripByIdempotent(UnescapeBraced(v), IsSpace);
        Hit(Strip(UnescapeBraced(v)))
  }

  /** Strategy 3: the group of the key-value pattern, unescaped and stripped. */
  function FromValue(s: string): (r: Option<string>)
    ensures r.Some? <==> ValueSearch(s).Some?
    ensures r.Some? ==> var m := ValueSearch(s).value; r.value == Strip(UnescapeValue(s[m.1..m.2]))
    ensures r.Some? ==> Strip(r.value) == r.value
  {
    match ValueSearch(s)
    case None => None
    case Some(m) =>
      StripByIdempotent(UnescapeValue(s[m.1..m.2]), IsSpace);
      Some(Strip(UnescapeValue(s[m.1..m.2])))
  }

  /** Strategy 4: the first Python code block, stripped. */
  function FromPyBlock(s: string): (r: Option<string>)
    ensures r.Some? <==> PyBlockSearch(s).Some?
    ensures r.Some? ==> var m := PyBlockSearch(s).value; r.value == Strip(s[m.0 + 10..m.1])
    ensures r.Some? ==> Strip(r.value) == r.value
  {
    match PyBlockSearch(s)
    case None => None
    case Some(m) =>
      StripByIdempotent(s[m.0 + 10..m.1], IsSpace);
      Some(Strip(s[m.0 + 10..m.1]))
  }

  /** Strategy 5: text that looks like pytest code, with fences removed. */
  function FromMarker(s: string): (r: Option<string>)
    ensures r.Some? <==> HasMarker(s)
    ensures r.Some? ==> r.value == MarkerFallback(s)
    ensures r.Some? ==> Strip(r.value) == r.value && |r.value| > 0
  {
    if HasMarker(s) then
      MarkerFallbackKeepsMarker(s);
      var x := Replace(Replace(s, PyTag, ""), Fence, "");
      StripByIdempotent(SubJsonBlock(x), IsSpace);
      Some(MarkerFallback(s))
    else None
  }

  /** Strategies 3 to 5, which run outside the JSON error handler. */
  function FromText(s: string): (r: Option<string>)
    ensures ValueSearch(s).Some? ==> r == FromValue(s)
    ensures ValueSearch(s).None? && PyBlockSearch(s).Some? ==> r == FromPyBlock(s)
    ensures ValueSearch(s).None? && PyBlockSearch(s).None? ==> r == FromMarker(s)
    ensures r.Some? ==> Strip(r.value) == r.value
    ensures r.None? <==> ValueSearch(s).None? && PyBlockSearch(s).None? && !HasMarker(s)
  {
    var v := FromValue(s);
    if v.Some? then v
    else
      var b := FromPyBlock(s);
      if b.Some? then b else FromMarker(s)
  }

  /** `_extract_code_from_result`. The strategies are tried in order and
      the first answer wins: strategy 1's code; else strategy 2's code after
      a miss of strategy 1 (a fault of strategy 1 skips strategy 2); else
      strategies 3 to 5. Whatever strategy succeeds, the code is stripped;
      text that looks like pytest code always yields code; and nothing is
      found only when neither the key-value pattern, nor a Python block,
      nor a pytest marker is present. */
  function ExtractCode(s: string, decode: string -> Decoded): (r: Option<string>)
    ensures FromJsonFence(s, decode).Hit? ==> r == Some(FromJsonFence(s, decode).code)
    ensures FromJsonFence(s, decode).Fault? ==> r == FromText(s)
    ensures FromJsonFence(s, decode).Miss? && FromBraces(s, decode).Hit?
      ==> r == Some(FromBraces(s, decode).code)
    ensures FromJsonFence(s, decode).Miss? && !FromBraces(s, decode).Hit? ==> r == FromText(s)
    ensures r.Some? ==> Strip(r.value) == r.value
    ensures HasMarker(s) ==> r.Some?
    ensures r.None? ==> forall p: nat, g: nat, h: nat :: !ValueMatch(s, p, g, h)
    ensures r.None? ==> forall p: nat, k: nat :: !PyBlockMatch(s, p, k)
    ensures r.None? ==> !HasMarker(s)
  {
    match FromJsonFence(s, decode)
    case Hit(c) => Some(c)
    case Fault => FromText(s)
    case Miss =>
      match FromBraces(s, decode)
      case Hit(c) => Some(c)
      case _ => FromText(s)
  }

  // ---------------------------------------------------------------------
  // Worked consequences
  // ---------------------------------------------------------------------

  /** With no fenced JSON object and no brace-free object naming the key,
      a key-value match wins over any Python block and any marker. */
  lemma ValueBeatsLaterStrategies(s: string, decode: string -> Decoded, p: nat, g: nat, h: nat)
    requires forall q: nat, k: nat :: !JsonFenceMatch(s, q, k)
    requires forall q: nat, e: nat :: !BraceMatch(s, q, e)
    requires ValueMatch(s, p, g, h)
    ensures FromValue(s).Some? && ExtractCode(s, decode) == FromValue(s)
  {
  }

  /** With none of the first three strategies matching, a Python block wins
      over a marker. */
  lemma PyBlockBeatsMarker(s: string, decode: string -> Decoded, p: nat, k: nat)
    requires forall q: nat, k: nat :: !JsonFenceMatch(s, q, k)
    requires forall q: nat, e: nat :: !BraceMatch(s, q, e)
    requires forall q: nat, g: nat, h: nat :: !ValueMatch(s, q, g, h)
    requires PyBlockMatch(s, p, k)
    ensures FromPyBlock(s).Some? && ExtractCode(s, decode) == FromPyBlock(s)
  {
  }

  /** The marker heuristic answers only when every pattern fails, and then
      its answer is the cleaned text. */
  lemma MarkerIsLast(s: string, decode: string -> Decoded)
    requires forall q: nat, k: nat :: !JsonFenceMatch(s, q, k)
    requires forall q: nat, e: nat :: !BraceMatch(s, q, e)
    requires forall q: nat, g: nat, h: nat :: !ValueMatch(s, q, g, h)
    requires forall q: nat, k: nat :: !PyBlockMatch(s, q, k)
    requires HasMarker(s)
    ensures ExtractCode(s, decode) == Some(MarkerFallback(s))
  {
  }

  /** A reply that opens with a fenced JSON object whose `final_code` is a
      string yields that string, unescaped and stripped, whatever follows. */
  lemma FencedJsonWins(ws: string, body: string, rest: string, decode: string -> Decoded, v: string)
    requires AllIn(ws, 0, |ws|, IsSpace)
    requires |body| >= 2 && body[0] == '{' && body[|body| - 1] == '}' && NoTick(body)
    requires FieldOf(decode(body)) == Some(JString(v))
    ensures ExtractCode(JsonOpen + ws + body + "\n" + Fence + rest, decode) == Some(Strip(UnescapeFenced(v)))
  {
    FencedJsonFound(ws, body, rest);
    CleanJsonOfWrapped(ws, body);
  }

  /** The fenced search takes exactly the fenced object. */
  lemma FencedJsonFound(ws: string, body: string, rest: string)
    requires AllIn(ws, 0, |ws|, IsSpace)
    requires |body| >= 2 && body[0] == '{' && body[|body| - 1] == '}' && NoTick(body)
    ensures JsonFenceText(JsonOpen + ws + body + "\n" + Fence + rest) == Some(JsonOpen + ws + body + "\n" + Fence)
  {
    var t := JsonOpen + ws + body + "\n" + Fence;
    var s := t + rest;
    var n, m := |ws|, |body|;
    var w := 7 + n;
    var k := w + m - 1;
    FencedJsonLayout(ws, body, rest);
    assert s[w] == '{' && s[k] == '}';
    assert JsonOpensAt(s, 0);
    assert JsonClosesAt(s, k);
    FencedJsonNoEarlierClose(ws, body, rest);
    FenceAtStart(s, w, k);
    assert JsonFenceEnd(s, k) == |t|;
    assert s[0..|t|] == t;
  }

  /** A reply opening with the tag whose first fitting `}` is at `k` gives
      the text up to the fence after it. */
  lemma FenceAtStart(s: string, w: nat, k: nat)
    requires JsonOpensAt(s, 0) && SpaceEnd(s, 7) == w && w < k && JsonClosesAt(s, k)
    requires forall j: nat :: w < j < k ==> !JsonClosesAt(s, j)
    ensures JsonFenceText(s) == Some(s[0..JsonFenceEnd(s, k)])
  {
    assert JsonFenceMatch(s, 0, k);
    var r := JsonFenceSearch(s);
    assert r.value.0 == 0;
    assert r.value.1 == k;
  }

  /** Where the parts of a fenced reply sit. */
  lemma FencedJsonLayout(ws: string, body: string, rest: string)
    requires AllIn(ws, 0, |ws|, IsSpace)
    requires |body| >= 2 && body[0] == '{' && body[|body| - 1] == '}' && NoTick(body)
    ensures var s := JsonOpen + ws + body + "\n" + Fence + rest;
      var w := 7 + |ws|; var k := w + |body| - 1;
      && At(s, 0, JsonOpen) && SpaceEnd(s, 7) == w
      && k + 5 <= |s| && s[k + 1] == '\n' && At(s, k + 2, Fence) && SpaceEnd(s, k + 1) == k + 2
      && (forall i :: w <= i <= k ==> s[i] == body[i - w])
  {
    var s := JsonOpen + ws + body + "\n" + Fence + rest;
    var w := 7 + |ws|;
    var k := w + |body| - 1;
    assert s[..7] == JsonOpen;
    forall i | 7 <= i < w ensures IsSpace(s[i]) {
      assert s[i] == ws[i - 7];
    }
    assert s[w] == body[0];
    RunEndUnique(s, 7, w, IsSpace);
    forall i | w <= i <= k ensures s[i] == body[i - w] {
    }
    assert s[k + 2..k + 5] == Fence;
    assert s[k + 2] == '`';
    RunEndUnique(s, k + 1, k + 2, IsSpace);
  }

  /** No earlier `}` of the object is followed by whitespace and a fence. */
  lemma FencedJsonNoEarlierClose(ws: string, body: string, rest: string)
    requires AllIn(ws, 0, |ws|, IsSpace)
    requires |body| >= 2 && body[0] == '{' && body[|body| - 1] == '}' && NoTick(body)
    ensures var s := JsonOpen + ws + body + "\n" + Fence + rest;
      forall j: nat :: 7 + |ws| < j < 7 + |ws| + |body| - 1 ==> !JsonClosesAt(s, j)
  {
    var s := JsonOpen + ws + body + "\n" + Fence + rest;
    var w := 7 + |ws|;
    var k := w + |body| - 1;
    FencedJsonLayout(ws, body, rest);
    forall j: nat | w < j < k ensures !JsonClosesAt(s, j) {
      var e := SpaceEnd(s, j + 1);
      assert s[k] == body[|body| - 1];
      assert !IsSpace(s[k]);
      assert e <= k;
      assert s[e] == body[e - w];
      AtNeedsHead(s, e, Fence);
    }
  }

  predicate PlainValue(v: string) {
    forall i :: 0 <= i < |v| ==> !IsQuote(v[i]) && NotBrace(v[i]) && v[i] != '`'
  }

  /** A reply that is just a `final_code` member with a plain non-empty
      value yields the value through strategy 3, whatever `json.loads`
      would say. */
  lemma BareValueFound(v: string, decode: string -> Decoded)
    requires |v| > 0 && PlainValue(v)
    ensures ExtractCode(KeyLit + ": \"" + v + "\"}", decode) == Some(Strip(UnescapeValue(v)))
  {
    var s := KeyLit + ": \"" + v + "\"}";
    var n := |v|;
    BareValueLayout(v);
    assert forall p: nat, k: nat :: !JsonFenceMatch(s, p, k) by {
      forall p: nat, k: nat ensures !JsonFenceMatch(s, p, k) {
        if p < |s| {
          AtNeedsHead(s, p, JsonOpen);
        }
      }
    }
    assert FromJsonFence(s, decode) == Miss;
    assert FromBraces(s, decode) == Miss;
    BareValueMatch(v);
    var r := ValueSearch(s);
    assert r.value.0 == 0;
    ValueGroupStartBound(s, 0);
    assert r.value.1 == 15;
    assert r.value.2 == 15 + n;
    assert s[15..15 + n] == v;
  }

  /** Where the parts of a bare member sit. */
  lemma BareValueLayout(v: string)
    requires |v| > 0 && PlainValue(v)
    ensures var s := KeyLit + ": \"" + v + "\"}";
      && |s| == 17 + |v|
      && s[..12] == KeyLit && s[12] == ':' && s[13] == ' ' && s[14] == '"'
      && s[15 + |v|] == '"' && s[16 + |v|] == '}'
      && (forall i :: 15 <= i < 15 + |v| ==> s[i] == v[i - 15])
      && (forall i :: 0 <= i < |s| ==> s[i] != '`' && s[i] != '{')
  {
    var s := KeyLit + ": \"" + v + "\"}";
    forall i | 0 <= i < |s| ensures s[i] != '`' && s[i] != '{' {
      if 15 <= i < 15 + |v| {
        assert s[i] == v[i - 15];
      }
    }
  }

  /** The key-value pattern matches at the start with the value as group,
      and no longer group or other closing position is possible there. */
  lemma BareValueMatch(v: string)
    requires |v| > 0 && PlainValue(v)
    ensures var s := KeyLit + ": \"" + v + "\"}";
      && ValueOpen(s, 0) == Some(14) && RunEnd(s, 14, IsQuote) == 15
      && ValueMatch(s, 0, 15, 15 + |v|)
      && forall h: nat :: 15 <= h < 15 + |v| ==> !ValueClosesAt(s, h)
  {
    var s := KeyLit + ": \"" + v + "\"}";
    var n := |v|;
    BareValueLayout(v);
    assert At(s, 0, KeyLit);
    RunEndUnique(s, 12, 12, IsSpace);
    RunEndUnique(s, 13, 14, IsSpace);
    assert s[15] == v[0];
    RunEndUnique(s, 14, 15, IsQuote);
    RunEndUnique(s, 15 + n, 16 + n, IsQuote);
    RunEndUnique(s, 16 + n, 16 + n, IsSpace);
    assert ValueClosesAt(s, 15 + n);
    forall h: nat | 15 <= h < 15 + n ensures !ValueClosesAt(s, h) {
      assert s[h] == v[h - 15];
    }
  }

  /** An empty `final_code` string: the greedy opening run first takes both
      quotes, finds no closing run, and gives one back, so the group is
      empty. */
  lemma EmptyValueFound(decode: string -> Decoded)
    ensures ExtractCode(KeyLit + ": \"\"}", decode) == Some("")
  {
    var s := KeyLit + ": \"\"}";
    assert |s| == 17;
    assert forall i :: 0 <= i < |s| ==> s[i] != '`' && s[i] != '{' by {
      EmptyValueChars(s);
    }
    assert forall p: nat, k: nat :: !JsonFenceMatch(s, p, k) by {
      forall p: nat, k: nat ensures !JsonFenceMatch(s, p, k) {
        if p < |s| {
          AtNeedsHead(s, p, JsonOpen);
        }
      }
    }
    EmptyValueSearch(s);
    assert s[15..15] == "";
    assert UnescapeValue("") == "";
    StripByFixed("", IsSpace);
  }

  lemma EmptyValueChars(s: string)
    requires s == KeyLit + ": \"\"}"
    ensures |s| == 17 && s[..12] == KeyLit
    ensures s[12] == ':' && s[13] == ' ' && s[14] == '"' && s[15] == '"' && s[16] == '}'
    ensures forall i :: 0 <= i < |s| ==> s[i] != '`' && s[i] != '{'
  {
  }

  /** The value search on `"final_code": ""}` finds the empty group. */
  lemma EmptyValueSearch(s: string)
    requires s == KeyLit + ": \"\"}"
    ensures ValueSearch(s) == Some((0, 15, 15))
  {
    EmptyValueChars(s);
    assert At(s, 0, KeyLit);
    RunEndUnique(s, 12, 12, IsSpace);
    RunEndUnique(s, 13, 14, IsSpace);
    RunEndUnique(s, 14, 16, IsQuote);
    RunEndUnique(s, 15, 16, IsQuote);
    RunEndUnique(s, 16, 16, IsSpace);
    assert ValueOpen(s, 0) == Some(14);
    assert ValueClosesAt(s, 15);
    assert FirstValueClose(s, 16).None? by {
      assert !ValueClosesAt(s, 16);
    }
    assert ValueAt(s, 0) == Some((15, 15));
  }
}
