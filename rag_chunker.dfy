/** The document chunker of the retrieval service (`RAGService._preprocess_text` and
    `RAGService._split_text`): normalise the page text, cut it into paragraphs, cut
    over-long paragraphs into sentences, and pack the pieces greedily into chunks. */
module RagChunker {
  import opened Text

  const DefaultMaxLength: int := 500
  /** Buffers whose stripped text is shorter than this are dropped. */
  const MinChunkLength: nat := 50

  predicate IsCjk(c: char) {
    '\U{4E00}' <= c <= '\U{9FFF}'
  }

  /** `\w`, restricted to ASCII letters, digits, `_` and the CJK ideographs. */
  predicate IsWordChar(c: char) {
    ('a' <= c <= 'z') || ('A' <= c <= 'Z') || ('0' <= c <= '9') || c == '_' || IsCjk(c)
  }

  /** The character class that survives the second substitution: word characters,
      whitespace, the CJK range, the listed full-width punctuation and the double quote.
      The apostrophe is not in it: the raw string literal ends before the `''`. */
  predicate IsKept(c: char) {
    IsWordChar(c) || IsSpace(c) || IsCjk(c) || IsKeptPunctuation(c)
  }

  /** The punctuation listed in the class: `。，！？、：；（）【】《》` and `"`. */
  predicate IsKeptPunctuation(c: char) {
    c == '。' || c == '，' || c == '！' || c == '？' || c == '、' || c == '：' || c == '；'
    || c == '（' || c == '）' || c == '【' || c == '】' || c == '《' || c == '》' || c == '"'
  }

  /** `re.sub(r'[^...]', '', s)`: drops every character outside `IsKept`. */
  function RemoveUnkept(s: string): (r: string)
    ensures forall i :: 0 <= i < |r| ==> IsKept(r[i])
    ensures OnlyBlanks(s) ==> OnlyBlanks(r)
  {
    if s == [] then []
    else (if IsKept(s[0]) then [s[0]] else []) + RemoveUnkept(s[1..])
  }

  /** `_preprocess_text`. The result is stripped, its only whitespace character is the
      blank and it has no line break; it may still hold two blanks in a row (see
      `PreprocessKeepsDoubleBlank`), because a removed character between two blanks
      brings them together. */
  function PreprocessText(text: string): (r: string)
    ensures NoSpaceAtEnds(r)
    ensures forall i :: 0 <= i < |r| ==> IsKept(r[i])
    ensures OnlyBlanks(r)
    ensures '\n' !in r
  {
    var kept := RemoveUnkept(CollapseSpaces(text));
    var r := Strip(kept);
    StripKeepsOnlyBlanks(kept);
    assert forall i :: 0 <= i < |r| ==> IsKept(r[i]) by {
      forall i | 0 <= i < |r| ensures IsKept(r[i]) {
        StripAt(kept, i);
      }
    }
    r
  }

  lemma CollapseSpacesExample()
    ensures CollapseSpaces("a @ b") == "a @ b"
  {
    assert !IsSpace('a') && !IsSpace('b') && !IsSpace('@') && IsSpace(' ');
    var s := "a @ b";
    assert s[1..] == " @ b" && s[1..][1..] == "@ b" && s[1..][1..][1..] == " b" && s[1..][1..][1..][1..] == "b";
    assert TrimLeft("b") == "b";
    assert TrimLeft("@ b") == "@ b";
    assert CollapseSpaces("b") == "b";
    assert CollapseSpaces(" b") == " b";
    assert CollapseSpaces("@ b") == "@ b";
    assert CollapseSpaces(" @ b") == " @ b";
  }

  lemma {:induction false} RemoveUnkeptAppend(a: string, b: string)
    ensures RemoveUnkept(a + b) == RemoveUnkept(a) + RemoveUnkept(b)
  {
    if a == [] {
      assert a + b == b;
    } else {
      assert (a + b)[0] == a[0] && (a + b)[1..] == a[1..] + b;
      RemoveUnkeptAppend(a[1..], b);
      AppendAssoc(if IsKept(a[0]) then [a[0]] else [], RemoveUnkept(a[1..]), RemoveUnkept(b));
    }
  }

  /** A removed character between two kept ones brings them together. */
  lemma RemoveUnkeptBetween(x: char, c: char, y: char)
    requires IsKept(x) && !IsKept(c) && IsKept(y)
    ensures RemoveUnkept([x, c, y]) == [x, y]
  {
    var s := [x, c, y];
    assert s[1..] == [c, y] && s[1..][1..] == [y] && s[1..][1..][1..] == [];
    assert RemoveUnkept([y]) == [y] + [];
    assert RemoveUnkept([c, y]) == [] + [y];
    assert RemoveUnkept(s) == [x] + [y];
  }

  lemma RemoveUnkeptExample()
    ensures RemoveUnkept("a @ b") == "a  b"
  {
    var head, tail := ['a'], ['b'];
    assert IsKept(' ') && !IsKept('@');
    RemoveUnkeptBetween(' ', '@', ' ');
    assert "a @ b" == head + [' ', '@', ' '] + tail;
    RemoveUnkeptAppend(head + [' ', '@', ' '], tail);
    RemoveUnkeptAppend(head, [' ', '@', ' ']);
    assert RemoveUnkept(head) == head && RemoveUnkept(tail) == tail;
    assert head + [' ', ' '] + tail == "a  b";
  }

  /** `re.sub` does not make whitespace runs disappear: "a @ b" becomes "a  b". */
  lemma PreprocessKeepsDoubleBlank()
    ensures PreprocessText("a @ b") == "a  b"
  {
    CollapseSpacesExample();
    RemoveUnkeptExample();
    StripNoOp("a  b");
  }

  /** `s.split('\n\n')`, cutting left to right at each non-overlapping occurrence. */
  function SplitParagraphs(s: string): (r: seq<string>)
    ensures |r| >= 1
    decreases |s|
  {
    if |s| >= 2 && s[0] == '\n' && s[1] == '\n' then [""] + SplitParagraphs(s[2..])
    else if s == [] then [""]
    else
      var rest := SplitParagraphs(s[1..]);
      [[s[0]] + rest[0]] + rest[1..]
  }

  /** A text with no line break is one paragraph. */
  lemma {:induction false} SingleParagraph(s: string)
    requires '\n' !in s
    ensures SplitParagraphs(s) == [s]
  {
    if s != [] {
      assert '\n' !in s[1..] by {
        forall c | c in s[1..] ensures c != '\n' { assert c in s; }
      }
      SingleParagraph(s[1..]);
      assert [s[0]] + s[1..] == s;
    }
  }

  /** Preprocessing removes every line break, so the paragraph split of `_split_text`
      always sees exactly one paragraph: the whole preprocessed text. */
  lemma PreprocessedIsOneParagraph(text: string)
    ensures SplitParagraphs(PreprocessText(text)) == [PreprocessText(text)]
  {
    SingleParagraph(PreprocessText(text));
  }

  /** `。！？!?` end a sentence. */
  predicate IsTerminator(c: char) {
    c in "。！？!?"
  }

  predicate HasNoTerminator(s: string) {
    forall i :: 0 <= i < |s| ==> !IsTerminator(s[i])
  }

  /** `re.split(r'([。！？!?])', s)`: the text pieces between terminators, with each
      captured terminator as an item of its own after the piece it ends. */
  function SplitTerminators(s: string): seq<string> {
    if s == [] then [""]
    else
      var rest := SplitTerminators(s[1..]);
      if IsTerminator(s[0]) then ["", [s[0]]] + rest
      else [[s[0]] + rest[0]] + rest[1..]
  }

  lemma FlattenAfterTerminator(c: char, rest: seq<string>)
    ensures Flatten(["", [c]] + rest) == [c] + Flatten(rest)
  {
    assert (["", [c]] + rest)[1..] == [[c]] + rest;
    assert ([[c]] + rest)[1..] == rest;
  }

  lemma FlattenIntoPiece(c: char, rest: seq<string>)
    requires rest != []
    ensures Flatten([[c] + rest[0]] + rest[1..]) == [c] + Flatten(rest)
  {
    assert ([[c] + rest[0]] + rest[1..])[1..] == rest[1..];
    assert ([c] + rest[0]) + Flatten(rest[1..]) == [c] + (rest[0] + Flatten(rest[1..]));
  }

  /** An odd number of items, and nothing lost. */
  lemma {:induction false} SplitTerminatorsFlatten(s: string)
    ensures |SplitTerminators(s)| % 2 == 1
    ensures Flatten(SplitTerminators(s)) == s
  {
    if s != [] {
      var rest := SplitTerminators(s[1..]);
      SplitTerminatorsFlatten(s[1..]);
      if IsTerminator(s[0]) {
        FlattenAfterTerminator(s[0], rest);
      } else {
        FlattenIntoPiece(s[0], rest);
      }
      assert [s[0]] + s[1..] == s;
    }
  }

  /** Each item at an odd position is one terminator. */
  lemma {:induction false} SplitTerminatorsOdd(s: string)
    ensures forall i :: 0 <= i < |SplitTerminators(s)| && i % 2 == 1 ==>
      |SplitTerminators(s)[i]| == 1 && IsTerminator(SplitTerminators(s)[i][0])
  {
    if s != [] {
      var rest := SplitTerminators(s[1..]);
      SplitTerminatorsOdd(s[1..]);
      var r := SplitTerminators(s);
      if IsTerminator(s[0]) {
        forall i | 2 <= i < |r| ensures r[i] == rest[i - 2] { }
      } else {
        forall i | 1 <= i < |r| ensures r[i] == rest[i] { }
      }
    }
  }

  /** Each item at an even position holds no terminator. */
  lemma {:induction false} SplitTerminatorsEven(s: string)
    ensures forall i :: 0 <= i < |SplitTerminators(s)| && i % 2 == 0 ==> HasNoTerminator(SplitTerminators(s)[i])
  {
    if s != [] {
      var rest := SplitTerminators(s[1..]);
      SplitTerminatorsEven(s[1..]);
      var r := SplitTerminators(s);
      if IsTerminator(s[0]) {
        forall i | 2 <= i < |r| ensures r[i] == rest[i - 2] { }
      } else {
        assert HasNoTerminator(rest[0]);
        forall i | 1 <= i < |r| ensures r[i] == rest[i] { }
      }
    }
  }

  /** Pieces at even positions, terminators at odd positions, and nothing lost. */
  lemma SplitTerminatorsShape(s: string)
    ensures |SplitTerminators(s)| % 2 == 1
    ensures Flatten(SplitTerminators(s)) == s
    ensures forall i :: 0 <= i < |SplitTerminators(s)| && i % 2 == 1 ==>
      |SplitTerminators(s)[i]| == 1 && IsTerminator(SplitTerminators(s)[i][0])
    ensures forall i :: 0 <= i < |SplitTerminators(s)| && i % 2 == 0 ==> HasNoTerminator(SplitTerminators(s)[i])
  {
    SplitTerminatorsFlatten(s);
    SplitTerminatorsOdd(s);
    SplitTerminatorsEven(s);
  }

  /** The pairing loop: each piece joined with the terminator after it; a final
      piece with no terminator after it stands alone. */
  function Pairs(parts: seq<string>): seq<string> {
    if |parts| == 0 then []
    else if |parts| == 1 then [parts[0]]
    else [parts[0] + parts[1]] + Pairs(parts[2..])
  }

  /** Pairing neither drops nor reorders a character. */
  lemma {:induction false} PairsFlatten(parts: seq<string>)
    ensures Flatten(Pairs(parts)) == Flatten(parts)
  {
    if |parts| >= 2 {
      PairsFlatten(parts[2..]);
      assert parts == [parts[0]] + ([parts[1]] + parts[2..]);
      assert Flatten(parts) == parts[0] + (parts[1] + Flatten(parts[2..]));
    }
  }

  /** One round of the `while i < len(sentences)` loop, seen from position `i`. */
  lemma PairsFrom(parts: seq<string>, i: nat)
    requires i < |parts|
    ensures i + 1 < |parts| ==> Pairs(parts[i..]) == [parts[i] + parts[i + 1]] + Pairs(parts[i + 2..])
    ensures i + 1 == |parts| ==> Pairs(parts[i..]) == [parts[i]] && parts[i + 1..] == []
  {
    if i + 1 < |parts| {
      assert parts[i..][2..] == parts[i + 2..];
    }
  }

  /** The sentences of a paragraph, before stripping. */
  function Sentences(para: string): seq<string> {
    Pairs(SplitTerminators(para))
  }

  predicate EndsWithTerminator(s: string) {
    s != [] && IsTerminator(s[|s| - 1])
  }

  lemma {:induction false} PairsShape(parts: seq<string>)
    requires |parts| % 2 == 1
    requires forall i :: 0 <= i < |parts| && i % 2 == 1 ==> |parts[i]| == 1 && IsTerminator(parts[i][0])
    requires forall i :: 0 <= i < |parts| && i % 2 == 0 ==> HasNoTerminator(parts[i])
    ensures |Pairs(parts)| == |parts| / 2 + 1
    ensures forall j :: 0 <= j < |Pairs(parts)| - 1 ==> EndsWithTerminator(Pairs(parts)[j])
    ensures HasNoTerminator(Pairs(parts)[|Pairs(parts)| - 1])
  {
    if |parts| > 1 {
      var tail := parts[2..];
      forall i | 0 <= i < |tail| && i % 2 == 1 ensures |tail[i]| == 1 && IsTerminator(tail[i][0]) {
        assert tail[i] == parts[i + 2];
      }
      forall i | 0 <= i < |tail| && i % 2 == 0 ensures HasNoTerminator(tail[i]) {
        assert tail[i] == parts[i + 2];
      }
      PairsShape(tail);
      assert Pairs(parts)[1..] == Pairs(tail);
      var first := parts[0] + parts[1];
      assert first[|first| - 1] == parts[1][0];
    }
  }

  /** Every sentence of a paragraph but the last ends with its terminator, the last has
      none, and together they are the paragraph: no character is lost or moved. */
  lemma SentencesShape(para: string)
    ensures Flatten(Sentences(para)) == para
    ensures forall j :: 0 <= j < |Sentences(para)| - 1 ==> EndsWithTerminator(Sentences(para)[j])
    ensures Sentences(para) != [] && HasNoTerminator(Sentences(para)[|Sentences(para)| - 1])
  {
    SplitTerminatorsShape(para);
    PairsShape(SplitTerminators(para));
    PairsFlatten(SplitTerminators(para));
  }

  /** The units one paragraph contributes: itself, or its sentences when it is longer
      than the limit. */
  function ParagraphUnits(paragraph: string, maxLength: int): seq<string> {
    var para := Strip(paragraph);
    if para == [] then []
    else if |para| > maxLength then Tidy(Sentences(para))
    else [para]
  }

  function UnitsOf(paragraphs: seq<string>, maxLength: int): seq<string> {
    if paragraphs == [] then []
    else ParagraphUnits(paragraphs[0], maxLength) + UnitsOf(paragraphs[1..], maxLength)
  }

  lemma UnitsOfFrom(paragraphs: seq<string>, p: nat, maxLength: int)
    requires p < |paragraphs|
    ensures UnitsOf(paragraphs[p..], maxLength) == ParagraphUnits(paragraphs[p], maxLength) + UnitsOf(paragraphs[p + 1..], maxLength)
  {
    assert paragraphs[p..][1..] == paragraphs[p + 1..];
  }

  lemma {:induction false} UnitsOfUnits(paragraphs: seq<string>, maxLength: int)
    ensures forall u :: u in UnitsOf(paragraphs, maxLength) ==> IsUnit(u)
  {
    if paragraphs != [] {
      UnitsOfUnits(paragraphs[1..], maxLength);
      var para := Strip(paragraphs[0]);
      if para != [] && |para| > maxLength {
        TidyUnits(Sentences(para));
      }
    }
  }

  /** All units of a text, in order. */
  function Units(text: string, maxLength: int): seq<string> {
    UnitsOf(SplitParagraphs(PreprocessText(text)), maxLength)
  }

  /** Every piece `_split_text` buffers is stripped and non-empty. */
  lemma UnitsAreStripped(text: string, maxLength: int)
    ensures forall u :: u in Units(text, maxLength) ==> IsUnit(u)
  {
    UnitsOfUnits(SplitParagraphs(PreprocessText(text)), maxLength);
  }

  /** A text no longer than the limit is buffered whole, as one unit. */
  lemma ShortTextIsOneUnit(text: string, maxLength: int)
    requires PreprocessText(text) != [] && |PreprocessText(text)| <= maxLength
    ensures Units(text, maxLength) == [PreprocessText(text)]
  {
    var t := PreprocessText(text);
    PreprocessedIsOneParagraph(text);
    StripNoOp(t);
    assert ParagraphUnits(t, maxLength) == [t];
    assert UnitsOf([t], maxLength) == ParagraphUnits(t, maxLength) + UnitsOf([], maxLength);
  }

  /** The greedy buffer: a unit goes into the current buffer unless the buffer is
      non-empty and its length plus the unit's would exceed the limit; then the buffer
      is closed first. `cur` is the buffer so far. */
  function Pack(units: seq<string>, maxLength: int, cur: seq<string>): seq<seq<string>> {
    if units == [] then (if cur == [] then [] else [cur])
    else if SumLen(cur) + |units[0]| > maxLength && cur != [] then [cur] + Pack(units[1..], maxLength, [units[0]])
    else Pack(units[1..], maxLength, cur + [units[0]])
  }

  /** The buffers, read in order, are the units in order: nothing dropped, nothing moved. */
  lemma {:induction false} PackFlatten(units: seq<string>, maxLength: int, cur: seq<string>)
    ensures Flatten(Pack(units, maxLength, cur)) == cur + units
  {
    if units == [] {
      if cur != [] {
        assert Flatten([cur]) == cur + Flatten<string>([]);
      }
    } else if SumLen(cur) + |units[0]| > maxLength && cur != [] {
      PackFlatten(units[1..], maxLength, [units[0]]);
      assert units == [units[0]] + units[1..];
      assert ([cur] + Pack(units[1..], maxLength, [units[0]]))[1..] == Pack(units[1..], maxLength, [units[0]]);
    } else {
      PackFlatten(units[1..], maxLength, cur + [units[0]]);
      assert units == [units[0]] + units[1..];
    }
  }

  /** The shape of the buffers: none is empty, one holding two units or more fits the
      limit (a unit over the limit therefore sits alone), and each buffer was closed
      only because the next unit would have pushed it past the limit. */
  ghost predicate GreedyGroups(groups: seq<seq<string>>, maxLength: int) {
    (forall j :: 0 <= j < |groups| ==> groups[j] != [])
    && (forall j :: 0 <= j < |groups| && |groups[j]| >= 2 ==> SumLen(groups[j]) <= maxLength)
    && (forall j, k :: 0 <= j && k == j + 1 && k < |groups| ==> SumLen(groups[j]) + |groups[k][0]| > maxLength)
  }

  lemma {:induction false} PackGreedy(units: seq<string>, maxLength: int, cur: seq<string>)
    requires |cur| <= 1 || SumLen(cur) <= maxLength
    ensures GreedyGroups(Pack(units, maxLength, cur), maxLength)
    ensures cur != [] ==> Pack(units, maxLength, cur) != [] && Pack(units, maxLength, cur)[0][0] == cur[0]
  {
    if units == [] {
    } else if SumLen(cur) + |units[0]| > maxLength && cur != [] {
      var rest := Pack(units[1..], maxLength, [units[0]]);
      PackGreedy(units[1..], maxLength, [units[0]]);
      var p := [cur] + rest;
      assert p[1..] == rest;
      forall j, k | 0 <= j && k == j + 1 && k < |p| ensures SumLen(p[j]) + |p[k][0]| > maxLength {
        if j > 0 {
          assert p[j] == rest[j - 1] && p[k] == rest[k - 1];
        }
      }
    } else {
      var next := cur + [units[0]];
      SumLenAppend(cur, [units[0]]);
      PackGreedy(units[1..], maxLength, next);
    }
  }

  /** The blank-joined text of a buffer is its summed length plus one blank per seam. */
  lemma JoinedLength(group: seq<string>)
    requires group != []
    ensures |Join(group, " ")| == SumLen(group) + |group| - 1
  {
    JoinLength(group, " ");
  }

  /** The limit bounds the summed unit lengths, not the chunk: two units of three
      characters fit a limit of six, and their joined chunk has seven. */
  lemma JoinedChunkMayExceedLimit()
    ensures Pack(["aaa", "bbb"], 6, []) == [["aaa", "bbb"]]
    ensures |Join(["aaa", "bbb"], " ")| == 7
  {
    var u: seq<string> := ["aaa", "bbb"];
    assert u[1..] == ["bbb"] && u[1..][1..] == [];
    assert [] + ["aaa"] == ["aaa"] && ["aaa"] + ["bbb"] == u;
    assert Pack(u, 6, []) == Pack(["bbb"], 6, ["aaa"]);
    assert SumLen(["aaa"]) == 3;
    assert Pack(["bbb"], 6, ["aaa"]) == Pack([], 6, u);
    JoinedLength(u);
    assert SumLen(u) == 6;
  }

  /** One closed buffer, joined with blanks, or nothing when its stripped text is too short. */
  function EmitOne(group: seq<string>): (r: seq<string>)
    ensures forall c :: c in r ==> |Strip(c)| >= MinChunkLength
    ensures r == [] || r == [Join(group, " ")]
    ensures r == [Join(group, " ")] <==> |Strip(Join(group, " "))| >= MinChunkLength
  {
    var c := Join(group, " ");
    if |Strip(c)| >= MinChunkLength then [c] else []
  }

  /** The closed buffers that are kept, in order; none is shorter than the minimum. */
  function EmitChunks(groups: seq<seq<string>>): (r: seq<string>)
    ensures forall c :: c in r ==> |Strip(c)| >= MinChunkLength
  {
    if groups == [] then [] else EmitOne(groups[0]) + EmitChunks(groups[1..])
  }

  /** The emitted chunks are exactly the joined buffers whose stripped text reaches the
      minimum: each such buffer appears, and nothing else does. */
  lemma {:induction false} EmitChunksMembers(groups: seq<seq<string>>)
    ensures forall g :: g in groups && |Strip(Join(g, " "))| >= MinChunkLength ==> Join(g, " ") in EmitChunks(groups)
    ensures forall c :: c in EmitChunks(groups) ==> exists g :: g in groups && c == Join(g, " ")
  {
    if groups != [] {
      EmitChunksMembers(groups[1..]);
      var e := EmitChunks(groups);
      assert e == EmitOne(groups[0]) + EmitChunks(groups[1..]);
      forall g | g in groups && |Strip(Join(g, " "))| >= MinChunkLength ensures Join(g, " ") in e {
        if g != groups[0] {
          assert g in groups[1..];
        }
      }
      forall c | c in e ensures exists g :: g in groups && c == Join(g, " ") {
        if c in EmitOne(groups[0]) {
          assert c == Join(groups[0], " ");
        } else {
          var g :| g in groups[1..] && c == Join(g, " ");
          assert g in groups;
        }
      }
    }
  }

  lemma {:induction false} EmitChunksAppend(a: seq<seq<string>>, b: seq<seq<string>>)
    ensures EmitChunks(a + b) == EmitChunks(a) + EmitChunks(b)
  {
    if a != [] {
      assert (a + b)[1..] == a[1..] + b;
      EmitChunksAppend(a[1..], b);
    } else {
      assert a + b == b;
    }
  }

  /** The buffers of a text, before the short ones are dropped. */
  function Groups(text: string, maxLength: int): seq<seq<string>> {
    Pack(Units(text, maxLength), maxLength, [])
  }

  /** What `_split_text(text, max_length)` returns. */
  function Chunks(text: string, maxLength: int): seq<string> {
    EmitChunks(Groups(text, maxLength))
  }

  /** The buffers of a text keep its units in order and are packed greedily. */
  lemma GroupsShape(text: string, maxLength: int)
    ensures Flatten(Groups(text, maxLength)) == Units(text, maxLength)
    ensures GreedyGroups(Groups(text, maxLength), maxLength)
  {
    PackFlatten(Units(text, maxLength), maxLength, []);
    PackGreedy(Units(text, maxLength), maxLength, []);
  }

  /** One step of the buffer, when `u` does not fit: the buffer is closed and `u` starts the next. */
  lemma PackClose(u: string, rest: seq<string>, maxLength: int, cur: seq<string>, closed: seq<seq<string>>)
    requires SumLen(cur) + |u| > maxLength && cur != []
    ensures closed + Pack([u] + rest, maxLength, cur) == (closed + [cur]) + Pack(rest, maxLength, [u])
  {
    assert ([u] + rest)[1..] == rest;
    var p := Pack(rest, maxLength, [u]);
    assert closed + ([cur] + p) == (closed + [cur]) + p;
  }

  /** One step of the buffer, when `u` fits (or the buffer is empty): `u` joins it. */
  lemma PackExtend(u: string, rest: seq<string>, maxLength: int, cur: seq<string>)
    requires !(SumLen(cur) + |u| > maxLength && cur != [])
    ensures Pack([u] + rest, maxLength, cur) == Pack(rest, maxLength, cur + [u])
  {
    assert ([u] + rest)[1..] == rest;
  }

  /** Closing the buffer (the three identical blocks of `_split_text`): its blank-joined
      text is kept when its stripped length reaches the minimum. */
  method Flush(currentChunk: seq<string>, chunks: seq<string>, ghost closed: seq<seq<string>>)
    returns (chunks': seq<string>, ghost closed': seq<seq<string>>)
    requires chunks == EmitChunks(closed)
    ensures closed' == closed + [currentChunk]
    ensures chunks' == EmitChunks(closed')
  {
    var chunkText := Join(currentChunk, " ");
    chunks' := chunks;
    if |Strip(chunkText)| >= MinChunkLength {
      chunks' := chunks' + [chunkText];
    }
    closed' := closed + [currentChunk];
    EmitChunksAppend(closed, [currentChunk]);
    assert EmitChunks([currentChunk]) == EmitOne(currentChunk) + EmitChunks([]);
  }

  /** The body shared by both branches of the loop: close the buffer when `unit` would
      push it past the limit, then add `unit`. `target` is what the buffering of all
      units gives; the state so far accounts for it. */
  method Feed(unit: string, maxLength: int, chunks: seq<string>, currentChunk: seq<string>, currentLength: int,
              ghost closed: seq<seq<string>>, ghost rest: seq<string>, ghost target: seq<seq<string>>)
    returns (chunks': seq<string>, currentChunk': seq<string>, currentLength': int, ghost closed': seq<seq<string>>)
    requires currentLength == SumLen(currentChunk)
    requires chunks == EmitChunks(closed)
    requires target == closed + Pack([unit] + rest, maxLength, currentChunk)
    ensures currentLength' == SumLen(currentChunk')
    ensures chunks' == EmitChunks(closed')
    ensures target == closed' + Pack(rest, maxLength, currentChunk')
  {
    chunks', currentChunk', currentLength', closed' := chunks, currentChunk, currentLength, closed;
    if currentLength + |unit| > maxLength && currentChunk != [] {
      PackClose(unit, rest, maxLength, currentChunk, closed);
      chunks', closed' := Flush(currentChunk, chunks, closed);
      currentChunk' := [];
      currentLength' := 0;
    } else {
      PackExtend(unit, rest, maxLength, currentChunk);
    }
    assert currentChunk' == [] ==> currentChunk' + [unit] == [unit];
    SumLenAppend(currentChunk', [unit]);
    currentChunk' := currentChunk' + [unit];
    currentLength' := currentLength' + |unit|;
  }

  /** The sentence loop of `_split_text` (`while i < len(sentences)`, two items per
      round, the last one alone), feeding each non-empty stripped sentence. */
  method FeedSentences(para: string, maxLength: int, chunks: seq<string>, currentChunk: seq<string>, currentLength: int,
                       ghost closed: seq<seq<string>>, ghost later: seq<string>, ghost target: seq<seq<string>>)
    returns (chunks': seq<string>, currentChunk': seq<string>, currentLength': int, ghost closed': seq<seq<string>>)
    requires currentLength == SumLen(currentChunk)
    requires chunks == EmitChunks(closed)
    requires target == closed + Pack(Tidy(Sentences(para)) + later, maxLength, currentChunk)
    ensures currentLength' == SumLen(currentChunk')
    ensures chunks' == EmitChunks(closed')
    ensures target == closed' + Pack(later, maxLength, currentChunk')
  {
    chunks', currentChunk', currentLength', closed' := chunks, currentChunk, currentLength, closed;
    var sentences := SplitTerminators(para);
    assert sentences[0..] == sentences;
    var i := 0;
    while i < |sentences|
      invariant 0 <= i <= |sentences|
      invariant currentLength' == SumLen(currentChunk')
      invariant chunks' == EmitChunks(closed')
      invariant target == closed' + Pack(Tidy(Pairs(sentences[i..])) + later, maxLength, currentChunk')
    {
      PairsFrom(sentences, i);
      ghost var before := Tidy(Pairs(sentences[i..])) + later;
      ghost var from := i;
      var sent;
      if i + 1 < |sentences| {
        sent := sentences[i] + sentences[i + 1];
        i := i + 2;
      } else {
        sent := sentences[i];
        i := i + 1;
      }
      assert Pairs(sentences[from..]) == [sent] + Pairs(sentences[i..]);
      TidyCons(sent, Pairs(sentences[i..]), later);
      ghost var tail := Tidy(Pairs(sentences[i..])) + later;
      sent := Strip(sent);
      if sent == [] {
        assert before == tail;
        continue;
      }
      assert before == [sent] + tail;
      chunks', currentChunk', currentLength', closed' := Feed(sent, maxLength, chunks', currentChunk', currentLength', closed', tail, target);
    }
    assert sentences[i..] == [];
    assert Tidy(Pairs([])) + later == later;
  }

  /** `_split_text`, as written: the paragraph loop, the sentence loop, the flush test
      and the final flush. Every chunk it returns has at least `MinChunkLength`
      characters once stripped. */
  method SplitText(text: string, maxLength: int) returns (chunks: seq<string>)
    ensures chunks == Chunks(text, maxLength)
    ensures forall c :: c in chunks ==> |Strip(c)| >= MinChunkLength
  {
    var t := PreprocessText(text);
    var paragraphs := SplitParagraphs(t);
    chunks := [];
    var currentChunk: seq<string> := [];
    var currentLength := 0;
    ghost var closed: seq<seq<string>> := [];
    ghost var target := Groups(text, maxLength);
    assert paragraphs[0..] == paragraphs;
    for p := 0 to |paragraphs|
      invariant currentLength == SumLen(currentChunk)
      invariant chunks == EmitChunks(closed)
      invariant target == closed + Pack(UnitsOf(paragraphs[p..], maxLength), maxLength, currentChunk)
    {
      UnitsOfFrom(paragraphs, p, maxLength);
      ghost var later := UnitsOf(paragraphs[p + 1..], maxLength);
      var para := Strip(paragraphs[p]);
      if para == [] {
        assert ParagraphUnits(paragraphs[p], maxLength) + later == later;
        continue;
      }
      if |para| > maxLength {
        chunks, currentChunk, currentLength, closed := FeedSentences(para, maxLength, chunks, currentChunk, currentLength, closed, later, target);
      } else {
        chunks, currentChunk, currentLength, closed := Feed(para, maxLength, chunks, currentChunk, currentLength, closed, later, target);
      }
    }
    assert UnitsOf(paragraphs[|paragraphs|..], maxLength) == [];
    if currentChunk != [] {
      chunks, closed := Flush(currentChunk, chunks, closed);
    }
    assert target == closed;
  }
}
