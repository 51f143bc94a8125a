/** Reading the example sentences out of the model's answer: the Markdown
    code fences are removed, then every double-quoted span on one line is
    taken, left to right, and blank spans are dropped. No JSON parser is
    involved; the extraction is the regular expression `"(.*?)"` of the
    Java regex engine, modelled as an explicit scan. */
module GeminiParse {
  import opened Common
  import opened Text
  import opened Seqs

  const Quote: char := '"'
  const Fence: string := "```"
  const JsonFence: string := "```json"

  // ---------------------------------------------------------------------
  // Fence removal

  /** `s.replace(pat, "")`: every occurrence of `pat` removed, found left
      to right without overlaps. */
  function RemoveAll(s: string, pat: string): (r: string)
    requires pat != []
    ensures |r| <= |s|
    ensures forall c :: c in r ==> c in s
    decreases |s|
  {
    if IsPrefix(pat, s) then RemoveAll(s[|pat|..], pat)
    else if s == [] then []
    else [s[0]] + RemoveAll(s[1..], pat)
  }

  /** Text that cannot start an occurrence passes through untouched. */
  lemma {:induction false} RemoveAllSkips(x: string, y: string, pat: string)
    requires pat != [] && pat[0] !in x
    ensures RemoveAll(x + y, pat) == x + RemoveAll(y, pat)
    decreases |x|
  {
    if x != [] {
      assert (x + y)[0] == x[0];
      assert !IsPrefix(pat, x + y);
      assert (x + y)[1..] == x[1..] + y;
      RemoveAllSkips(x[1..], y, pat);
      assert [x[0]] + (x[1..] + RemoveAll(y, pat)) == x + RemoveAll(y, pat);
    } else {
      assert x + y == y;
    }
  }

  /** The fences go first: every "```json", then every "```". */
  function Clean(response: string): (r: string)
    ensures |r| <= |response|
    ensures forall c :: c in r ==> c in response
  {
    RemoveAll(RemoveAll(response, JsonFence), Fence)
  }

  /** An answer wrapped in a fenced JSON block loses exactly the fences. */
  lemma CleanFenced(body: string)
    requires '`' !in body
    ensures Clean(JsonFence + body + Fence) == body
  {
    var s := JsonFence + body + Fence;
    assert IsPrefix(JsonFence, s);
    assert s[|JsonFence|..] == body + Fence;
    RemoveAllSkips(body, Fence, JsonFence);
    assert !IsPrefix(JsonFence, Fence);
    assert Fence[1..] == "``";
    assert RemoveAll(Fence, JsonFence) == Fence by {
      assert RemoveAll("``", JsonFence) == "``" by {
        assert RemoveAll("`", JsonFence) == "`" by {
          assert RemoveAll("", JsonFence) == "";
          assert ("`")[1..] == "";
        }
        assert ("``")[1..] == "`";
      }
    }
    RemoveAllSkips(body, Fence, Fence);
    assert IsPrefix(Fence, Fence) && Fence[|Fence|..] == "";
    assert body + "" == body;
  }

  /** An answer without backticks is left as it is. */
  lemma CleanPlain(body: string)
    requires '`' !in body
    ensures Clean(body) == body
  {
    RemoveAllSkips(body, "", JsonFence);
    RemoveAllSkips(body, "", Fence);
    assert body + "" == body;
  }

  // ---------------------------------------------------------------------
  // The quoted-span scan

  /** The characters `.` does not match: the Java line terminators. */
  predicate IsTerminator(c: char) {
    c == '\n' || c == '\r' || c == '\U{0085}' || c == '\U{2028}' || c == '\U{2029}'
  }

  /** Text `.*?` may run over: no quote and no line terminator. */
  predicate Plain(x: string) {
    forall k :: 0 <= k < |x| ==> x[k] != Quote && !IsTerminator(x[k])
  }

  /** `j` is the closing quote for an opening quote just before `t`: the
      first quote of `t`, with no line terminator before it. */
  predicate Closes(t: string, j: int) {
    0 <= j < |t| && t[j] == Quote && Plain(t[..j])
  }

  /** Where the span opened just before `t` closes, if it does. */
  function Close(t: string): (r: Option<nat>)
    ensures r.Some? ==> Closes(t, r.value)
    ensures r.None? ==> forall j :: !Closes(t, j)
  {
    if t == [] then None
    else if t[0] == Quote then
      assert t[..0] == [];
      Some(0)
    else if IsTerminator(t[0]) then
      assert forall j :: !Closes(t, j) by {
        forall j | 0 < j <= |t|
          ensures t[..j][0] == t[0]
        {
        }
      }
      None
    else
      match Close(t[1..])
      case Some(j) =>
        assert t[..j + 1] == [t[0]] + t[1..][..j];
        Some(j + 1)
      case None =>
        assert forall j :: !Closes(t, j) by {
          forall j | 0 < j < |t|
            ensures Closes(t, j) ==> Closes(t[1..], j - 1)
          {
            assert t[1..][..j - 1] == t[..j][1..];
          }
          assert !Closes(t, 0);
        }
        None
  }

  /** `regex.findAll(s).map { groupValues[1] }`: at each quote that has a
      closing quote on the same line the captured text is taken and the
      scan resumes after the closing quote; at any other character the
      scan moves on by one. */
  function Extract(s: string): (r: seq<string>)
    ensures forall x :: x in r ==> Plain(x)
    decreases |s|
  {
    if s == [] then []
    else if s[0] != Quote then Extract(s[1..])
    else
      var t := s[1..];
      match Close(t)
      case Some(j) => [t[..j]] + Extract(t[j + 1..])
      case None => Extract(t)
  }

  /** Kotlin's `Char.isWhitespace`: Java's whitespace together with the
      Unicode space separators, so the no-break spaces count too. */
  predicate IsWhitespace(c: char) {
    c == '\t' || c == '\n' || c == '\U{000B}' || c == '\U{000C}' || c == '\r'
    || ('\U{001C}' <= c <= '\U{001F}')
    || c == ' ' || c == '\U{00A0}' || c == '\U{1680}' || ('\U{2000}' <= c <= '\U{200A}')
    || c == '\U{2028}' || c == '\U{2029}' || c == '\U{202F}' || c == '\U{205F}' || c == '\U{3000}'
  }

  predicate Blank(x: string) {
    forall k :: 0 <= k < |x| ==> IsWhitespace(x[k])
  }

  /** `parseJsonResponse`. The source catches every exception and answers
      with an empty list; nothing in this computation throws, so the
      handler is never reached. */
  function ParseJsonResponse(response: string): (r: seq<string>)
    ensures forall x :: x in r ==> Plain(x) && !Blank(x)
    ensures |r| <= |response|
  {
    var spans := Extract(Clean(response));
    ExtractShorter(Clean(response));
    Filter(spans, (x: string) => !Blank(x))
  }

  lemma {:induction false} ExtractShorter(s: string)
    ensures |Extract(s)| <= |s|
    decreases |s|
  {
    if s != [] {
      if s[0] != Quote {
        ExtractShorter(s[1..]);
      } else {
        var t := s[1..];
        match Close(t)
        case Some(j) => ExtractShorter(t[j + 1..]);
        case None => ExtractShorter(t);
      }
    }
  }

  // ---------------------------------------------------------------------
  // Properties of the scan

  /** Text without quotes yields nothing and does not disturb what follows. */
  lemma {:induction false} ExtractSkips(a: string, b: string)
    requires Quote !in a
    ensures Extract(a + b) == Extract(b)
    decreases |a|
  {
    if a != [] {
      assert (a + b)[0] == a[0];
      assert (a + b)[1..] == a[1..] + b;
      ExtractSkips(a[1..], b);
    } else {
      assert a + b == b;
    }
  }

  /** A quoted span on one line is captured whole, by the nearest closing
      quote, and the scan resumes right after it. */
  lemma ExtractSpan(x: string, b: string)
    requires Plain(x)
    ensures Extract([Quote] + x + [Quote] + b) == [x] + Extract(b)
  {
    var s := [Quote] + x + [Quote] + b;
    var t := s[1..];
    assert t == x + [Quote] + b;
    CloseAt(x, b);
    assert t[..|x|] == x;
    assert t[|x| + 1..] == b;
  }

  lemma {:induction false} CloseAt(x: string, b: string)
    requires Plain(x)
    ensures Close(x + [Quote] + b) == Some(|x|)
    decreases |x|
  {
    var t := x + [Quote] + b;
    if x != [] {
      assert t[0] == x[0];
      assert t[1..] == x[1..] + [Quote] + b;
      CloseAt(x[1..], b);
    }
  }

  /** An opening quote whose span would cross a line break captures
      nothing; the scan moves on to the very next character. */
  lemma ExtractBroken(x: string, c: char, y: string)
    requires Plain(x) && IsTerminator(c)
    ensures Extract([Quote] + x + [c] + y) == Extract(x + [c] + y)
  {
    var s := [Quote] + x + [c] + y;
    assert s[1..] == x + [c] + y;
    CloseBroken(x, c, y);
  }

  lemma {:induction false} CloseBroken(x: string, c: char, y: string)
    requires Plain(x) && IsTerminator(c)
    ensures Close(x + [c] + y) == None
    decreases |x|
  {
    var t := x + [c] + y;
    if x != [] {
      assert t[0] == x[0];
      assert t[1..] == x[1..] + [c] + y;
      CloseBroken(x[1..], c, y);
    }
  }

  /** An answer without any quote yields no sentence. */
  lemma NoQuoteNothing(response: string)
    requires Quote !in response
    ensures ParseJsonResponse(response) == []
  {
    var c := Clean(response);
    assert Quote !in c;
    ExtractSkips(c, []);
    assert c + [] == c;
  }

  // ---------------------------------------------------------------------
  // The answer shape the prompt asks for

  /** A sentence that survives the round trip: on one line, without quotes
      or backticks, and not blank. */
  predicate Sentence(x: string) {
    Plain(x) && '`' !in x && !Blank(x)
  }

  function Quoted(x: string): string {
    [Quote] + x + [Quote]
  }

  /** The sentences as a JSON array of strings: `["a", "b"]`. */
  function JsonArray(xs: seq<string>): string {
    "[" + Items(xs) + "]"
  }

  function Items(xs: seq<string>): string {
    if xs == [] then ""
    else if |xs| == 1 then Quoted(xs[0])
    else Quoted(xs[0]) + ", " + Items(xs[1..])
  }

  lemma {:induction false} ItemsNoBacktick(xs: seq<string>)
    requires forall i :: 0 <= i < |xs| ==> '`' !in xs[i]
    ensures '`' !in Items(xs)
    decreases |xs|
  {
    if |xs| > 1 {
      ItemsNoBacktick(xs[1..]);
    }
  }

  lemma {:induction false} ExtractItems(xs: seq<string>, tail: string)
    requires forall i :: 0 <= i < |xs| ==> Plain(xs[i])
    ensures Extract(Items(xs) + tail) == xs + Extract(tail)
    decreases |xs|
  {
    if xs == [] {
      assert Items(xs) + tail == tail;
    } else if |xs| == 1 {
      assert Items(xs) + tail == [Quote] + xs[0] + [Quote] + tail;
      ExtractSpan(xs[0], tail);
      assert xs == [xs[0]];
    } else {
      ExtractItems(xs[1..], tail);
      ItemsStep(xs, tail);
    }
  }

  lemma ItemsCons(xs: seq<string>)
    requires |xs| > 1
    ensures Items(xs) == Quoted(xs[0]) + ", " + Items(xs[1..])
  {
  }

  lemma ItemsStep(xs: seq<string>, tail: string)
    requires |xs| > 1 && Plain(xs[0])
    requires Extract(Items(xs[1..]) + tail) == xs[1..] + Extract(tail)
    ensures Extract(Items(xs) + tail) == xs + Extract(tail)
  {
    hide Extract, Items;
    var later := Items(xs[1..]) + tail;
    var rest := ", " + later;
    ItemsCons(xs);
    assert Items(xs) + tail == [Quote] + xs[0] + [Quote] + rest;
    ExtractSpan(xs[0], rest);
    ExtractSkips(", ", later);
    assert xs == [xs[0]] + xs[1..];
  }

  /** The items between quote-free framing text are read back in order. */
  lemma ExtractFramed(xs: seq<string>, pre: string, post: string)
    requires forall i :: 0 <= i < |xs| ==> Plain(xs[i])
    requires Quote !in pre && Quote !in post
    ensures Extract(pre + Items(xs) + post) == xs
  {
    hide Extract, Items;
    var body := Items(xs) + post;
    assert pre + Items(xs) + post == pre + body;
    ExtractSkips(pre, body);
    ExtractItems(xs, post);
    assert post + [] == post;
    ExtractSkips(post, []);
    ExtractEmpty();
    assert xs + [] == xs;
  }

  lemma ExtractEmpty()
    ensures Extract([]) == []
  {
  }

  lemma ParseCleaned(response: string, xs: seq<string>)
    requires forall i :: 0 <= i < |xs| ==> !Blank(xs[i])
    requires Extract(Clean(response)) == xs
    ensures ParseJsonResponse(response) == xs
  {
    FilterKeepsAll(xs, (x: string) => !Blank(x));
  }

  /** Sentences written as a JSON array come back as they were, in order,
      whether or not the array is wrapped in a ```json fence. */
  lemma RoundTrip(xs: seq<string>)
    requires forall i :: 0 <= i < |xs| ==> Sentence(xs[i])
    ensures ParseJsonResponse(JsonArray(xs)) == xs
    ensures ParseJsonResponse(JsonFence + "\n" + JsonArray(xs) + "\n" + Fence) == xs
  {
    hide Extract, Clean, Items, ParseJsonResponse;
    ItemsNoBacktick(xs);
    var a := JsonArray(xs);
    assert '`' !in a;
    CleanPlain(a);
    ExtractFramed(xs, "[", "]");
    ParseCleaned(a, xs);
    var body := "\n" + a + "\n";
    assert '`' !in body;
    assert JsonFence + "\n" + a + "\n" + Fence == JsonFence + body + Fence;
    CleanFenced(body);
    assert body == "\n[" + Items(xs) + "]\n";
    ExtractFramed(xs, "\n[", "]\n");
    ParseCleaned(JsonFence + body + Fence, xs);
  }
}
