/** The document chunker of the vector store service (`VectorService.clean_text` and
    `VectorService.split_text`): filter and normalise the text, cut it after sentence
    ends, and pack sentences into chunks under a strict length limit, handing an
    over-long sentence to a word segmenter. */
module VectorChunker {
  import opened Wrappers
  import opened Text

  /** The default `max_length` of `split_text`. */
  const DefaultMaxLength: int := 800
  /** A chunk is kept only when its stripped length is above this. */
  const MinChunkLength: nat := 30

  /** The characters the first substitution of `clean_text` keeps: CJK ideographs, CJK
      symbols and punctuation, the full-width forms, printable ASCII and the line break. */
  predicate IsAllowed(c: char) {
    ('\U{4E00}' <= c <= '\U{9FFF}') || ('\U{3000}' <= c <= '\U{303F}') || ('\U{FF00}' <= c <= '\U{FF60}')
    || (' ' <= c <= '~') || c == '\n'
  }

  function FilterAllowed(s: string): (r: string)
    ensures forall i :: 0 <= i < |r| ==> IsAllowed(r[i])
    ensures |r| <= |s|
    ensures (forall i :: 0 <= i < |s| ==> IsAllowed(s[i])) ==> r == s
  {
    if s == [] then [] else (if IsAllowed(s[0]) then [s[0]] else []) + FilterAllowed(s[1..])
  }

  /** The filter decides character by character: on a concatenation it is the
      concatenation of the filtered parts, so the allowed characters keep their order. */
  lemma {:induction false} FilterAllowedAppend(a: string, b: string)
    ensures FilterAllowed(a + b) == FilterAllowed(a) + FilterAllowed(b)
  {
    if a == [] {
      assert a + b == b;
    } else {
      assert (a + b)[0] == a[0] && (a + b)[1..] == a[1..] + b;
      FilterAllowedAppend(a[1..], b);
      AppendAssoc(if IsAllowed(a[0]) then [a[0]] else [], FilterAllowed(a[1..]), FilterAllowed(b));
    }
  }

  /** Filtering a second time removes nothing more. */
  lemma FilterAllowedIdempotent(s: string)
    ensures FilterAllowed(FilterAllowed(s)) == FilterAllowed(s)
  {
  }

  /** The full-width colon and semicolon become their ASCII forms; the two quote
      replacements of the source replace a character by itself. */
  function NormalizeChar(c: char): char {
    if c == '：' then ':' else if c == '；' then ';' else c
  }

  function NormalizePunctuation(s: string): (r: string)
    ensures |r| == |s| && forall i :: 0 <= i < |s| ==> r[i] == NormalizeChar(s[i])
    ensures forall i :: 0 <= i < |r| ==> r[i] != '：' && r[i] != '；'
    ensures forall i :: 0 <= i < |s| && s[i] != '：' && s[i] != '；' ==> r[i] == s[i]
    ensures forall i :: 0 <= i < |s| && s[i] == '：' ==> r[i] == ':'
    ensures forall i :: 0 <= i < |s| && s[i] == '；' ==> r[i] == ';'
  {
    seq(|s|, i requires 0 <= i < |s| => NormalizeChar(s[i]))
  }

  /** The characters that can survive `clean_text`. */
  predicate IsClean(c: char) {
    IsAllowed(c) && c != '：' && c != '；' && c != '\n'
  }

  /** How many whitespace characters `t` starts with. */
  function SpaceRun(t: string): (n: nat)
    ensures n <= |t|
    ensures forall i :: 0 <= i < n ==> IsSpace(t[i])
    ensures n < |t| ==> !IsSpace(t[n])
  {
    if t != [] && IsSpace(t[0]) then 1 + SpaceRun(t[1..]) else 0
  }

  /** The last line break among the first `n` characters of `t`. */
  function LastNewline(t: string, n: nat): (r: Option<nat>)
    requires n <= |t|
    ensures r.Some? ==> r.value < n && t[r.value] == '\n'
    ensures r.None? <==> forall i :: 0 <= i < n ==> t[i] != '\n'
  {
    if n == 0 then None else if t[n - 1] == '\n' then Some(n - 1) else LastNewline(t, n - 1)
  }

  /** `re.sub(r'\n\s*\n', '\n', s)`: a line break, the longest whitespace run after it
      that still ends in a line break, and that line break become one line break. */
  function CollapseBlankLines(s: string): string
    decreases |s|
  {
    if s == [] then []
    else if s[0] == '\n' && LastNewline(s[1..], SpaceRun(s[1..])).Some? then
      "\n" + CollapseBlankLines(s[1..][LastNewline(s[1..], SpaceRun(s[1..])).value + 1..])
    else [s[0]] + CollapseBlankLines(s[1..])
  }

  /** Without a line break there is nothing for the blank-line substitution to do. */
  lemma {:induction false} CollapseBlankLinesNoOp(s: string)
    requires forall i :: 0 <= i < |s| ==> s[i] != '\n'
    ensures CollapseBlankLines(s) == s
  {
    if s != [] {
      CollapseBlankLinesNoOp(s[1..]);
      assert [s[0]] + s[1..] == s;
    }
  }

  /** `clean_text`. */
  function CleanText(text: string): string {
    var collapsed := CollapseSpaces(NormalizePunctuation(FilterAllowed(text)));
    Strip(CollapseBlankLines(collapsed))
  }

  /** Collapsing whitespace keeps every other character of the input as it was. */
  lemma {:induction false} CollapseSpacesKeeps(s: string, P: char -> bool)
    requires forall i :: 0 <= i < |s| && !IsSpace(s[i]) ==> P(s[i])
    ensures forall i :: 0 <= i < |CollapseSpaces(s)| && !IsSpace(CollapseSpaces(s)[i]) ==> P(CollapseSpaces(s)[i])
    decreases |s|
  {
    if s != [] {
      if IsSpace(s[0]) {
        var t := TrimLeft(s[1..]);
        TrimLeftSuffix(s[1..]);
        assert forall i :: 0 <= i < |t| ==> t[i] == s[1 + |s[1..]| - |t| + i];
        CollapseSpacesKeeps(t, P);
      } else {
        assert forall i :: 0 <= i < |s[1..]| ==> s[1..][i] == s[i + 1];
        CollapseSpacesKeeps(s[1..], P);
      }
    }
  }

  /** What `clean_text` promises: no outer whitespace, no line break, the blank as the
      only whitespace and never two in a row, and only allowed characters with the
      full-width colon and semicolon gone. */
  lemma CleanTextShape(text: string)
    ensures NoSpaceAtEnds(CleanText(text))
    ensures forall i :: 0 <= i < |CleanText(text)| ==> IsClean(CleanText(text)[i]) || CleanText(text)[i] == ' '
    ensures OnlyBlanks(CleanText(text))
    ensures forall i, j :: 0 <= i && j == i + 1 && j < |CleanText(text)| ==> !(CleanText(text)[i] == ' ' && CleanText(text)[j] == ' ')
  {
    var n := NormalizePunctuation(FilterAllowed(text));
    var c := CollapseSpaces(n);
    assert forall i :: 0 <= i < |c| ==> c[i] != '\n' by {
      forall i | 0 <= i < |c| ensures c[i] != '\n' {
        assert IsSpace('\n');
      }
    }
    CollapseBlankLinesNoOp(c);
    CollapseSpacesKeeps(n, IsClean);
    var r := Strip(c);
    assert r == CleanText(text);
    StripKeepsOnlyBlanks(c);
    forall i | 0 <= i < |r| ensures IsClean(r[i]) || r[i] == ' ' {
      StripAt(c, i);
    }
    forall i, j | 0 <= i && j == i + 1 && j < |r| ensures !(r[i] == ' ' && r[j] == ' ') {
      StripAt(c, i);
      StripAt(c, j);
      assert IsSpace(' ');
    }
  }

  /** What `clean_text` keeps: the characters of the result that are not whitespace are
      exactly those of the filtered, normalised input, in order; only whitespace is
      collapsed or stripped. */
  lemma CleanTextContent(text: string)
    ensures NonSpace(CleanText(text)) == NonSpace(NormalizePunctuation(FilterAllowed(text)))
  {
    var n := NormalizePunctuation(FilterAllowed(text));
    var c := CollapseSpaces(n);
    assert forall i :: 0 <= i < |c| ==> c[i] != '\n' by {
      forall i | 0 <= i < |c| ensures c[i] != '\n' {
        assert IsSpace('\n');
      }
    }
    CollapseBlankLinesNoOp(c);
    CollapseSpacesNonSpace(n);
    StripNonSpace(c);
  }

  /** `。！？.!?` end a sentence. */
  predicate IsSentenceEnd(c: char) {
    c in "。！？.!?"
  }

  /** The closing quotes the second alternative of the pattern allows after a sentence end. */
  predicate IsCloseQuote(c: char) {
    c in "\"'』」》"
  }

  /** The split pattern matches the empty string at position `p` of `s`: after a
      sentence end, after a closing quote that follows one, or after a line break. */
  predicate CutAt(s: string, p: nat)
    requires 0 < p <= |s|
  {
    IsSentenceEnd(s[p - 1]) || (p >= 2 && IsSentenceEnd(s[p - 2]) && IsCloseQuote(s[p - 1])) || s[p - 1] == '\n'
  }

  /** The pieces of `s[start..]` when the piece in progress started at `start` and
      positions up to `q` have been examined. */
  function Cut(s: string, start: nat, q: nat): seq<string>
    requires start <= q <= |s|
    decreases |s| - q
  {
    if q == |s| then [s[start..]]
    else if CutAt(s, q + 1) then [s[start..q + 1]] + Cut(s, q + 1, q + 1)
    else Cut(s, start, q + 1)
  }

  /** `re.split(sentence_pattern, text)`: the text cut at every position the pattern
      matches (so a text ending in a sentence end gives a last, empty piece). */
  function SplitSentences(s: string): seq<string> {
    Cut(s, 0, 0)
  }

  /** A character after which the pattern can match. */
  predicate EndsPiece(c: char) {
    IsSentenceEnd(c) || IsCloseQuote(c) || c == '\n'
  }

  /** The pieces, read in order, are the text. */
  lemma {:induction false} CutFlatten(s: string, start: nat, q: nat)
    requires start <= q <= |s|
    ensures Flatten(Cut(s, start, q)) == s[start..]
    decreases |s| - q
  {
    if q == |s| {
      assert Cut(s, start, q) == [s[start..]];
      FlattenCons<char>(s[start..], []);
      assert s[start..] + [] == s[start..];
    } else if CutAt(s, q + 1) {
      var x, rest := s[start..q + 1], Cut(s, q + 1, q + 1);
      assert Cut(s, start, q) == [x] + rest;
      CutFlatten(s, q + 1, q + 1);
      FlattenCons(x, rest);
      assert s[start..] == x + s[q + 1..];
    } else {
      assert Cut(s, start, q) == Cut(s, start, q + 1);
      CutFlatten(s, start, q + 1);
    }
  }

  /** Each piece but the last is non-empty and ends with a sentence end, a closing quote
      or a line break. */
  lemma {:induction false} CutEnds(s: string, start: nat, q: nat)
    requires start <= q <= |s|
    ensures forall j :: 0 <= j < |Cut(s, start, q)| - 1 ==>
      Cut(s, start, q)[j] != [] && EndsPiece(Cut(s, start, q)[j][|Cut(s, start, q)[j]| - 1])
    decreases |s| - q
  {
    if q < |s| {
      if CutAt(s, q + 1) {
        var x := s[start..q + 1];
        var rest := Cut(s, q + 1, q + 1);
        CutEnds(s, q + 1, q + 1);
        assert x[|x| - 1] == s[q];
        var r: seq<string> := [x] + rest;
        forall j: int | 0 <= j < |r| - 1
          ensures r[j] != [] && EndsPiece(r[j][|r[j]| - 1])
        {
          if j > 0 {
            assert r[j] == rest[j - 1];
          }
        }
      } else {
        CutEnds(s, start, q + 1);
      }
    }
  }

  /** No piece holds a sentence end or line break before its last character. */
  lemma {:induction false} CutInterior(s: string, start: nat, q: nat)
    requires start <= q <= |s|
    requires forall i :: start <= i < q ==> !IsSentenceEnd(s[i]) && s[i] != '\n'
    ensures forall j, k :: 0 <= j < |Cut(s, start, q)| && 0 <= k < |Cut(s, start, q)[j]| - 1 ==>
      !IsSentenceEnd(Cut(s, start, q)[j][k]) && Cut(s, start, q)[j][k] != '\n'
    decreases |s| - q
  {
    if q == |s| {
      forall k | 0 <= k < |s[start..]| - 1 ensures !IsSentenceEnd(s[start..][k]) && s[start..][k] != '\n' {
        assert s[start..][k] == s[start + k];
      }
    } else if CutAt(s, q + 1) {
      var x := s[start..q + 1];
      var rest := Cut(s, q + 1, q + 1);
      CutInterior(s, q + 1, q + 1);
      var r: seq<string> := [x] + rest;
      forall j: int, k: int | 0 <= j < |r| && 0 <= k < |r[j]| - 1
        ensures !IsSentenceEnd(r[j][k]) && r[j][k] != '\n'
      {
        if j == 0 {
          assert x[k] == s[start + k];
        } else {
          assert r[j] == rest[j - 1];
        }
      }
    } else {
      CutInterior(s, start, q + 1);
    }
  }

  /** The sentences `split_text` works on: the cut pieces, stripped, empty ones dropped. */
  function Sentences(text: string): seq<string> {
    Tidy(SplitSentences(text))
  }

  /** The segmenter loop for one over-long sentence: a word joins the fragment while
      the fragment stays strictly below the limit; otherwise the fragment (if any) is
      emitted and the word starts the next. */
  function Fragments(words: seq<string>, maxLength: int, temp: string): seq<string> {
    if words == [] then (if temp == [] then [] else [temp])
    else if |temp| + |words[0]| < maxLength then Fragments(words[1..], maxLength, temp + words[0])
    else (if temp == [] then [] else [temp]) + Fragments(words[1..], maxLength, words[0])
  }

  /** The fragments, read in order, are the words, read in order. */
  lemma {:induction false} FragmentsFlatten(words: seq<string>, maxLength: int, temp: string)
    ensures Flatten(Fragments(words, maxLength, temp)) == temp + Flatten(words)
  {
    if words != [] {
      assert words == [words[0]] + words[1..];
      if |temp| + |words[0]| < maxLength {
        FragmentsFlatten(words[1..], maxLength, temp + words[0]);
      } else {
        FragmentsFlatten(words[1..], maxLength, words[0]);
        var f := Fragments(words[1..], maxLength, words[0]);
        assert Flatten(words) == words[0] + Flatten(words[1..]);
        if temp != [] {
          assert ([temp] + f)[1..] == f;
          assert Flatten([temp] + f) == temp + Flatten(f);
        } else {
          assert [] + f == f;
        }
      }
    } else if temp != [] {
      assert Flatten([temp]) == temp + Flatten<char>([]);
    }
  }

  /** A fragment is never empty, and it is below the limit unless it is a single word. */
  lemma {:induction false} FragmentsBound(words: seq<string>, maxLength: int, temp: string, all: seq<string>)
    requires forall w :: w in words ==> w in all
    requires temp == [] || |temp| < maxLength || temp in all
    ensures forall f :: f in Fragments(words, maxLength, temp) ==> f != [] && (|f| < maxLength || f in all)
  {
    if words != [] {
      assert words[0] in words;
      forall w | w in words[1..] ensures w in all { assert w in words; }
      if |temp| + |words[0]| < maxLength {
        FragmentsBound(words[1..], maxLength, temp + words[0], all);
      } else {
        FragmentsBound(words[1..], maxLength, words[0], all);
      }
    }
  }

  /** All words the segmenter gives for the over-long sentences, in order. */
  function LongWords(sentences: seq<string>, maxLength: int, tokenize: string -> seq<string>): seq<string> {
    if sentences == [] then []
    else (if |sentences[0]| > maxLength then tokenize(sentences[0]) else []) + LongWords(sentences[1..], maxLength, tokenize)
  }

  /** The sentence loop of `split_text`: an over-long sentence is cut into fragments
      that are emitted at once, while the pending buffer waits; any other sentence
      joins the buffer when the result stays strictly below the limit, and otherwise
      closes the (non-empty) buffer and starts the next one. */
  function Buffered(sentences: seq<string>, maxLength: int, tokenize: string -> seq<string>, current: string): seq<string> {
    if sentences == [] then (if current == [] then [] else [current])
    else
      var sentence := sentences[0];
      if |sentence| > maxLength then
        Fragments(tokenize(sentence), maxLength, "") + Buffered(sentences[1..], maxLength, tokenize, current)
      else if |current| + |sentence| < maxLength then
        Buffered(sentences[1..], maxLength, tokenize, current + sentence)
      else
        (if current == [] then [] else [current]) + Buffered(sentences[1..], maxLength, tokenize, sentence)
  }

  lemma {:induction false} BufferedBoundFrom(sentences: seq<string>, maxLength: int, tokenize: string -> seq<string>, current: string,
                                             all: seq<string>, words: seq<string>)
    requires forall x :: x in sentences ==> x in all
    requires forall x :: x in LongWords(sentences, maxLength, tokenize) ==> x in words
    requires current == [] || |current| < maxLength || (|current| == maxLength && current in all)
    ensures forall c :: c in Buffered(sentences, maxLength, tokenize, current) ==>
      c != [] && (|c| < maxLength || (|c| == maxLength && c in all) || c in words)
  {
    if sentences != [] {
      var sentence := sentences[0];
      var rest := sentences[1..];
      assert sentence in sentences;
      forall x | x in rest ensures x in all { assert x in sentences; }
      var lw := LongWords(rest, maxLength, tokenize);
      var mine := if |sentence| > maxLength then tokenize(sentence) else [];
      assert LongWords(sentences, maxLength, tokenize) == mine + lw;
      forall x | x in lw ensures x in words { assert x in mine + lw; }
      if |sentence| > maxLength {
        BufferedBoundFrom(rest, maxLength, tokenize, current, all, words);
        forall x | x in tokenize(sentence) ensures x in words { assert x in mine + lw; }
        FragmentsBound(tokenize(sentence), maxLength, "", words);
      } else if |current| + |sentence| < maxLength {
        BufferedBoundFrom(rest, maxLength, tokenize, current + sentence, all, words);
      } else {
        BufferedBoundFrom(rest, maxLength, tokenize, sentence, all, words);
      }
    }
  }

  /** Every chunk before filtering is non-empty and strictly below the limit, except a
      buffer holding a single sentence of exactly the limit, and a fragment holding a
      single word of an over-long sentence. */
  lemma BufferedBound(sentences: seq<string>, maxLength: int, tokenize: string -> seq<string>)
    ensures forall c :: c in Buffered(sentences, maxLength, tokenize, "") ==>
      c != [] && (|c| < maxLength || (|c| == maxLength && c in sentences) || c in LongWords(sentences, maxLength, tokenize))
  {
    BufferedBoundFrom(sentences, maxLength, tokenize, "", sentences, LongWords(sentences, maxLength, tokenize));
  }

  /** The final filter: the chunks whose stripped length exceeds `MinChunkLength`, in order. */
  function KeepLong(chunks: seq<string>): (r: seq<string>)
    ensures forall c :: c in r <==> c in chunks && |Strip(c)| > MinChunkLength
    ensures |r| <= |chunks|
  {
    if chunks == [] then []
    else (if |Strip(chunks[0])| > MinChunkLength then [chunks[0]] else []) + KeepLong(chunks[1..])
  }

  /** The filter keeps the order of the chunks: on a concatenation it is the
      concatenation of the filtered parts. */
  lemma {:induction false} KeepLongAppend(a: seq<string>, b: seq<string>)
    ensures KeepLong(a + b) == KeepLong(a) + KeepLong(b)
  {
    if a == [] {
      assert a + b == b;
    } else {
      assert (a + b)[0] == a[0] && (a + b)[1..] == a[1..] + b;
      KeepLongAppend(a[1..], b);
      AppendAssoc(if |Strip(a[0])| > MinChunkLength then [a[0]] else [], KeepLong(a[1..]), KeepLong(b));
    }
  }

  /** What `split_text(text, max_length)` returns, with `tokenize` for the
      segmenter. */
  function VectorChunks(text: string, maxLength: int, tokenize: string -> seq<string>): seq<string> {
    KeepLong(Buffered(Sentences(text), maxLength, tokenize, ""))
  }

  /** Segmenting into single characters. */
  function Characters(s: string): seq<string> {
    seq(|s|, i requires 0 <= i < |s| => [s[i]])
  }

  /** The fragments of an over-long sentence overtake the pending buffer: with a limit
      of three, "ab" waits in the buffer while "wxyz" is cut into "wx" and "yz", and
      "ab" comes out last. */
  lemma FragmentsOvertakeBuffer()
    ensures Buffered(["ab", "wxyz"], 3, Characters, "") == ["wx", "yz", "ab"]
  {
    var words := Characters("wxyz");
    assert words == ["w", "x", "y", "z"];
    assert words[1..] == ["x", "y", "z"] && words[1..][1..] == ["y", "z"] && words[1..][1..][1..] == ["z"];
    assert "y" + "z" == "yz" && "w" + "x" == "wx" && "" + "w" == "w" && "" + "ab" == "ab";
    assert ["z"][1..] == [];
    assert Fragments(["z"], 3, "y") == Fragments([], 3, "yz");
    assert Fragments(["y", "z"], 3, "wx") == ["wx"] + Fragments(["z"], 3, "y");
    assert Fragments(["x", "y", "z"], 3, "w") == Fragments(["y", "z"], 3, "wx");
    assert Fragments(words, 3, "") == Fragments(["x", "y", "z"], 3, "w");
    var ss: seq<string> := ["ab", "wxyz"];
    assert ss[1..] == ["wxyz"] && ss[1..][1..] == [];
    assert Buffered(ss, 3, Characters, "") == Buffered(["wxyz"], 3, Characters, "ab");
    assert Buffered(["wxyz"], 3, Characters, "ab") == ["wx", "yz"] + Buffered([], 3, Characters, "ab");
  }

  /** The segmenter loop (`for word in words`) for one over-long sentence. */
  method FragmentSentence(words: seq<string>, maxLength: int, chunks: seq<string>) returns (chunks': seq<string>)
    ensures chunks' == chunks + Fragments(words, maxLength, "")
  {
    chunks' := chunks;
    var temp := "";
    assert words[0..] == words;
    for k := 0 to |words|
      invariant chunks' + Fragments(words[k..], maxLength, temp) == chunks + Fragments(words, maxLength, "")
    {
      var word := words[k];
      assert words[k..][1..] == words[k + 1..];
      if |temp| + |word| < maxLength {
        temp := temp + word;
      } else {
        if temp != [] {
          chunks' := chunks' + [temp];
        } else {
          assert [] + Fragments(words[k + 1..], maxLength, word) == Fragments(words[k + 1..], maxLength, word);
        }
        temp := word;
      }
    }
    assert words[|words|..] == [];
    if temp != [] {
      chunks' := chunks' + [temp];
    }
  }

  /** One step of the sentence loop, on the sentences from position `i` on. */
  lemma BufferedAt(ss: seq<string>, i: nat, maxLength: int, tokenize: string -> seq<string>, current: string)
    requires i < |ss|
    ensures Buffered(ss[i..], maxLength, tokenize, current) ==
      if |ss[i]| > maxLength then
        Fragments(tokenize(ss[i]), maxLength, "") + Buffered(ss[i + 1..], maxLength, tokenize, current)
      else if |current| + |ss[i]| < maxLength then
        Buffered(ss[i + 1..], maxLength, tokenize, current + ss[i])
      else
        (if current == [] then [] else [current]) + Buffered(ss[i + 1..], maxLength, tokenize, ss[i])
  {
    assert ss[i..][0] == ss[i] && ss[i..][1..] == ss[i + 1..];
  }

  /** `split_text`, as written: the sentence loop with its buffer, the segmenter loop
      for over-long sentences, the final flush and the length filter. */
  method SplitText(text: string, maxLength: int, tokenize: string -> seq<string>) returns (result: seq<string>)
    ensures result == VectorChunks(text, maxLength, tokenize)
    ensures forall c :: c in result ==> |Strip(c)| > MinChunkLength
  {
    var sentences := Tidy(SplitSentences(text));
    var chunks: seq<string> := [];
    var current := "";
    ghost var target := Buffered(sentences, maxLength, tokenize, "");
    assert sentences[0..] == sentences;
    for i := 0 to |sentences|
      invariant target == chunks + Buffered(sentences[i..], maxLength, tokenize, current)
    {
      var sentence := sentences[i];
      ghost var rest := sentences[i + 1..];
      BufferedAt(sentences, i, maxLength, tokenize, current);
      if |sentence| > maxLength {
        var words := tokenize(sentence);
        ghost var before := chunks;
        chunks := FragmentSentence(words, maxLength, chunks);
        AppendAssoc(before, Fragments(words, maxLength, ""), Buffered(rest, maxLength, tokenize, current));
      } else if |current| + |sentence| < maxLength {
        current := current + sentence;
      } else {
        if current != [] {
          AppendAssoc(chunks, [current], Buffered(rest, maxLength, tokenize, sentence));
          chunks := chunks + [current];
        } else {
          assert [] + Buffered(rest, maxLength, tokenize, sentence) == Buffered(rest, maxLength, tokenize, sentence);
        }
        current := sentence;
      }
    }
    assert sentences[|sentences|..] == [];
    if current != [] {
      chunks := chunks + [current];
    }
    assert target == chunks;
    result := KeepLong(chunks);
  }
}
