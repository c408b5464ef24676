/** Packing memory into a byte budget: src/artek_buddy/memory.py and memory_book.py. */
module Packers {
  import opened Wrappers
  import opened Text
  import opened Bytes

  /** _byte_length: the UTF-8 length. */
  function ByteLength(s: string): nat {
    |Encode(s)|
  }

  lemma LengthIs(s: string)
    ensures ByteLength(s) == |Encode(s)|
  {}

  lemma {:induction false} LengthAdds(a: string, b: string)
    ensures ByteLength(a + b) == ByteLength(a) + ByteLength(b)
  {
    hide EncodeChar;
    if a == "" {
      assert a + b == b;
    } else {
      assert (a + b)[1..] == a[1..] + b && (a + b)[0] == a[0];
      LengthAdds(a[1..], b);
    }
  }

  predicate IsPrefix(p: string, s: string) {
    |p| <= |s| && s[..|p|] == p
  }

  /** The longest prefix that fits. */
  predicate Fits(r: string, value: string, maxBytes: int) {
    && IsPrefix(r, value)
    && (r != "" ==> ByteLength(r) <= maxBytes)
    && (|r| < |value| ==> ByteLength(value[..|r| + 1]) > maxBytes)
  }

  method TruncateUtf8(value: string, maxBytes: int) returns (r: string)
    ensures Fits(r, value, maxBytes)
  {
    hide Encode, EncodeChar;
    EmptyLength();
    if maxBytes <= 0 {
      PrefixPositive(value);
      return "";
    }
    if ByteLength(value) <= maxBytes { assert value[..|value|] == value; return value; }
    r := "";
    var used := 0;
    assert value[..|value|] == value;
    for i := 0 to |value|
      invariant r == value[..i] && used == ByteLength(r) <= maxBytes
    {
      var size := ByteLength([value[i]]);
      LengthAdds(r, [value[i]]);
      assert value[..i + 1] == r + [value[i]];
      if used + size > maxBytes { return; }
      r := r + [value[i]];
      used := used + size;
    }
  }

  lemma EmptyLength()
    ensures ByteLength("") == 0
  {}

  lemma PrefixPositive(value: string)
    ensures value != "" ==> ByteLength(value[..1]) > 0
  {
    if value != "" { assert value[..1][0] == value[0]; }
  }

  // ---------------------------------------------------------------------------
  // Memory documents

  /** A document in packing order: its heading line and its content. */
  datatype Document = Document(heading: string, content: string)

  function Separator(first: bool): string {
    if first then "" else "\n\n"
  }

  /** All headings and contents, were there no budget. */
  function FullText(docs: seq<Document>, first: bool): string {
    if docs == [] then ""
    else Separator(first) + docs[0].heading + docs[0].content + FullText(docs[1..], false)
  }

  /** Where packing stops: nothing is left, or the next heading does not fit whole, or a
      heading fits and its content is cut at the first character that does not. */
  ghost predicate StopsAt(docs: seq<Document>, i: nat, sections: string, budget: nat)
    requires i <= |docs|
  {
    var base := FullText(docs[..i], true);
    if i == |docs| then sections == base && ByteLength(base) <= budget
    else
      var headed := base + (Separator(i == 0) + docs[i].heading);
      if ByteLength(headed) > budget then sections == base && ByteLength(base) <= budget
      else exists body :: sections == headed + body && Cut(body, docs[i].content, budget - ByteLength(headed))
  }

  /** A strict prefix after which the next character does not fit. */
  predicate Cut(body: string, content: string, room: int) {
    Fits(body, content, room) && body != content
  }

  ghost predicate Packed(docs: seq<Document>, sections: string, budget: nat) {
    exists i :: 0 <= i <= |docs| && StopsAt(docs, i, sections, budget)
  }

  /** The packing loop keeps the longest run of whole documents that fits, then as much of the
      next one as fits behind its whole heading. */
  method PackSections(docs: seq<Document>, budget: nat) returns (sections: string)
    ensures Packed(docs, sections, budget)
    ensures ByteLength(sections) <= budget
    ensures IsPrefix(sections, FullText(docs, true))
  {
    hide ByteLength, Separator, FullText, Encode, EncodeChar, Fits;
    EmptyLength();
    EmptyText();
    sections := "";
    var remaining: int := budget;
    assert docs[..0] == [];
    for i := 0 to |docs|
      invariant remaining >= 0 && ByteLength(sections) + remaining == budget
      invariant sections == FullText(docs[..i], true)
    {
      var heading := Separator(i == 0) + docs[i].heading;
      TextSplits(docs, i, true);
      PrefixAppend(sections, "", FullText(docs[i..], i == 0));
      var headingBytes := ByteLength(heading);
      LengthAdds(sections, heading);
      if headingBytes > remaining {
        assert StopsAt(docs, i, sections, budget);
        return;
      }
      ghost var base := sections;
      sections := sections + heading;
      remaining := remaining - headingBytes;
      var body := TruncateUtf8(docs[i].content, remaining);
      EmptyBody(body, docs[i].content, remaining);
      LengthAdds(sections, body);
      FullStep(docs, i);
      TextSnoc(docs, i);
      Regroup(base, heading, docs[i].content, body, FullText(docs[i + 1..], false));
      sections := sections + body;
      remaining := remaining - ByteLength(body);
      if body != docs[i].content {
        assert sections == base + heading + body && Cut(body, docs[i].content, budget - ByteLength(base + heading));
        assert StopsAt(docs, i, sections, budget);
        return;
      }
    }
    assert docs[..|docs|] == docs;
    assert sections[..|sections|] == sections;
    assert StopsAt(docs, |docs|, sections, budget);
  }

  lemma EmptyText()
    ensures FullText([], true) == "" && FullText([], false) == ""
  {}

  lemma {:induction false} TextSplits(docs: seq<Document>, i: nat, first: bool)
    requires i <= |docs|
    ensures FullText(docs, first) == FullText(docs[..i], first) + FullText(docs[i..], first && i == 0)
  {
    hide Separator;
    if i == 0 {
      assert docs[..0] == [] && docs[0..] == docs;
      assert "" + FullText(docs, first) == FullText(docs, first);
    } else {
      TextSplits(docs[1..], i - 1, false);
      assert docs[1..][..i - 1] == docs[..i][1..] && docs[1..][i - 1..] == docs[i..];
      TextCons(docs, first);
      TextCons(docs[..i], first);
      PrefixAppend(Separator(first) + docs[0].heading + docs[0].content,
                   FullText(docs[..i][1..], false), FullText(docs[i..], false));
    }
  }

  lemma TextCons(docs: seq<Document>, first: bool)
    requires docs != []
    ensures FullText(docs, first) == Separator(first) + docs[0].heading + docs[0].content + FullText(docs[1..], false)
  {}

  lemma TextSnoc(docs: seq<Document>, i: nat)
    requires i < |docs|
    ensures FullText(docs[..i + 1], true) ==
            FullText(docs[..i], true) + (Separator(i == 0) + docs[i].heading) + docs[i].content
  {
    hide Separator;
    TextSplits(docs[..i + 1], i, true);
    assert docs[..i + 1][..i] == docs[..i] && docs[..i + 1][i..] == [docs[i]];
    assert [docs[i]][1..] == [];
  }

  lemma EmptyBody(body: string, value: string, n: nat)
    requires Fits(body, value, n)
    ensures ByteLength(body) <= n && IsPrefix(body, value)
  {
    EmptyLength();
  }

  lemma FullStep(docs: seq<Document>, i: nat)
    requires i < |docs|
    ensures FullText(docs[i..], i == 0) ==
            Separator(i == 0) + docs[i].heading + docs[i].content + FullText(docs[i + 1..], false)
  {
    assert docs[i..][1..] == docs[i + 1..];
  }

  lemma PrefixAppend(a: string, b: string, rest: string)
    ensures IsPrefix(a, a + rest) && a + b + rest == a + (b + rest)
  {}

  lemma Regroup(base: string, heading: string, content: string, body: string, tail: string)
    requires IsPrefix(body, content)
    ensures base + (heading + content + tail) == base + heading + content + tail
    ensures IsPrefix(base + heading + body, base + (heading + content + tail))
  {
    var c := content[|body|..];
    assert content == body + c;
    assert base + (heading + (body + c) + tail) == (base + heading + body) + (c + tail);
  }

  /** format_memory_context, with its fixed texts given. */
  method FormatMemoryContext(docs: seq<Document>, preamble: string, closing: string, maxBytes: nat)
    returns (r: Option<string>)
    ensures r.None? <==> docs == []
    ensures r.Some? ==> ByteLength(r.value) <= maxBytes
    ensures r.Some? && maxBytes <= ByteLength(preamble) + ByteLength(closing) ==>
              Fits(r.value, preamble + closing, maxBytes)
    ensures r.Some? && maxBytes > ByteLength(preamble) + ByteLength(closing) ==>
              exists sections :: r.value == preamble + sections + closing &&
                Packed(docs, sections, maxBytes - ByteLength(preamble) - ByteLength(closing))
  {
    hide ByteLength, FullText, Packed, Fits;
    EmptyLength();
    if docs == [] { return None; }
    var fixed := ByteLength(preamble) + ByteLength(closing);
    if maxBytes <= fixed {
      var t := TruncateUtf8(preamble + closing, maxBytes);
      EmptyBody(t, preamble + closing, maxBytes);
      return Some(t);
    }
    var sections := PackSections(docs, maxBytes - fixed);
    LengthAdds(preamble, sections);
    LengthAdds(preamble + sections, closing);
    r := Some(preamble + sections + closing);
  }

  // ---------------------------------------------------------------------------
  // Memory books

  function Concat(pieces: seq<string>): string {
    if pieces == [] then "" else Concat(pieces[..|pieces| - 1]) + pieces[|pieces| - 1]
  }

  /** A book's text as it enters the packed text: on a new line unless it is the first. */
  function Chunk(before: string, block: string): string {
    if before == "" then block else "\n" + block
  }

  /** The longest prefix of the chunk that fits; nothing when that prefix is only white space. */
  ghost predicate PieceOf(piece: string, before: string, block: string, maxBytes: nat) {
    if block == "" || ByteLength(before) >= maxBytes then piece == ""
    else exists cut :: Fits(cut, Chunk(before, block), maxBytes - ByteLength(before)) &&
                       piece == if Strip(cut) == "" then "" else cut
  }

  ghost predicate Recalled(pieces: seq<string>, blocks: seq<string>, maxBytes: nat) {
    |pieces| == |blocks| && forall i :: 0 <= i < |blocks| ==> PieceOf(pieces[i], Concat(pieces[..i]), blocks[i], maxBytes)
  }

  /** format_recalled_memory's packing of the books, in order. */
  method FormatRecalledMemory(blocks: seq<string>, maxBytes: nat) returns (r: Option<string>, ghost pieces: seq<string>)
    ensures r.Some? ==> r.value != "" && ByteLength(r.value) <= maxBytes
    ensures Recalled(pieces, blocks, maxBytes)
    ensures r == if Concat(pieces) == "" then None else Some(Concat(pieces))
  {
    hide ByteLength, Strip, Concat, Fits;
    EmptyLength();
    ConcatEmpty();
    var packed := "";
    pieces := [];
    var first := true;
    for i := 0 to |blocks|
      invariant packed == Concat(pieces) && ByteLength(packed) <= maxBytes && (first <==> packed == "")
      invariant Recalled(pieces, blocks[..i], maxBytes)
    {
      var used := ByteLength(packed);
      if blocks[i] == "" || used >= maxBytes {
        RecalledSnoc(pieces, "", blocks, i, maxBytes);
        pieces := pieces + [""];
        continue;
      }
      var chunk := if first then blocks[i] else "\n" + blocks[i];
      var piece := TruncateUtf8(chunk, maxBytes - used);
      assert chunk == Chunk(packed, blocks[i]);
      EmptyBody(piece, chunk, maxBytes - used);
      if Strip(piece) == "" {
        RecalledSnoc(pieces, "", blocks, i, maxBytes);
        pieces := pieces + [""];
        continue;
      }
      StripNonempty(piece);
      LengthAdds(packed, piece);
      RecalledSnoc(pieces, piece, blocks, i, maxBytes);
      packed := packed + piece;
      pieces := pieces + [piece];
      first := false;
    }
    assert blocks[..|blocks|] == blocks;
    r := if packed == "" then None else Some(packed);
  }

  lemma ConcatEmpty()
    ensures Concat([]) == ""
  {}

  lemma RecalledSnoc(pieces: seq<string>, piece: string, blocks: seq<string>, i: nat, maxBytes: nat)
    requires i < |blocks| && Recalled(pieces, blocks[..i], maxBytes)
    requires PieceOf(piece, Concat(pieces), blocks[i], maxBytes)
    ensures Recalled(pieces + [piece], blocks[..i + 1], maxBytes)
    ensures Concat(pieces + [piece]) == Concat(pieces) + piece
  {
    hide ByteLength, Strip, PieceOf;
    var after := pieces + [piece];
    assert after[..|after| - 1] == pieces;
    forall k | 0 <= k < i + 1
      ensures PieceOf(after[k], Concat(after[..k]), blocks[..i + 1][k], maxBytes)
    {
      if k < i {
        assert after[..k] == pieces[..k] && blocks[..i][k] == blocks[k];
      }
    }
  }

  lemma StripNonempty(s: string)
    ensures Strip(s) != "" ==> s != ""
  {}

  /** All the nonempty books, one after another on lines of their own. */
  function AllBooks(blocks: seq<string>): string {
    if blocks == [] then ""
    else
      var before := AllBooks(blocks[..|blocks| - 1]);
      if blocks[|blocks| - 1] == "" then before else before + Chunk(before, blocks[|blocks| - 1])
  }

  /** Where no book is blank and all of them fit, nothing is cut. */
  lemma {:induction false} RecalledWhole(pieces: seq<string>, blocks: seq<string>, maxBytes: nat)
    requires Recalled(pieces, blocks, maxBytes)
    requires forall b :: b in blocks && b != "" ==> Strip(b) != "" && Strip("\n" + b) != ""
    requires ByteLength(AllBooks(blocks)) <= maxBytes
    ensures Concat(pieces) == AllBooks(blocks)
  {
    hide ByteLength, Strip, PieceOf;
    if blocks != [] {
      var n := |blocks| - 1;
      var before := AllBooks(blocks[..n]);
      LengthAdds(before, Chunk(before, blocks[n]));
      RecalledTake(pieces, blocks, n, maxBytes);
      RecalledWhole(pieces[..n], blocks[..n], maxBytes);
      assert blocks[n] in blocks;
      WholePiece(pieces[n], before, blocks[n], maxBytes);
      assert before + "" == before;
    }
  }

  lemma RecalledTake(pieces: seq<string>, blocks: seq<string>, n: nat, maxBytes: nat)
    requires Recalled(pieces, blocks, maxBytes) && n <= |blocks|
    ensures Recalled(pieces[..n], blocks[..n], maxBytes)
  {
    hide PieceOf, Concat;
    forall k | 0 <= k < n
      ensures PieceOf(pieces[..n][k], Concat(pieces[..n][..k]), blocks[..n][k], maxBytes)
    {
      assert pieces[..n][..k] == pieces[..k];
    }
  }

  lemma WholePiece(piece: string, before: string, block: string, maxBytes: nat)
    requires PieceOf(piece, before, block, maxBytes)
    requires block != "" ==> Strip(block) != "" && Strip("\n" + block) != ""
    requires block != "" ==> ByteLength(before + Chunk(before, block)) <= maxBytes
    ensures piece == if block == "" then "" else Chunk(before, block)
  {
    hide ByteLength, Strip, Fits;
    if block != "" {
      var chunk := Chunk(before, block);
      LengthAdds(before, chunk);
      SomeLength(chunk);
      var cut :| Fits(cut, chunk, maxBytes - ByteLength(before)) && piece == if Strip(cut) == "" then "" else cut;
      WholeFits(cut, chunk, maxBytes - ByteLength(before));
    }
  }

  lemma {:induction false} PrefixLength(value: string, k: nat)
    requires k <= |value|
    ensures ByteLength(value[..k]) <= ByteLength(value)
  {
    LengthAdds(value[..k], value[k..]);
    assert value == value[..k] + value[k..];
  }

  lemma WholeFits(cut: string, value: string, room: nat)
    requires Fits(cut, value, room) && ByteLength(value) <= room
    ensures cut == value
  {
    if |cut| < |value| {
      PrefixLength(value, |cut| + 1);
    } else {
      assert value[..|value|] == value;
    }
  }

  // ---------------------------------------------------------------------------
  // The chat context

  const ELLIPSIS := "\U{2026}"

  /** What a line becomes when `room` bytes are left: itself where it fits with its line break,
      else the longest prefix that leaves room for an ellipsis, without trailing white space. */
  ghost predicate KeptLine(chunk: string, line: string, room: int) {
    if ByteLength(line) + 1 <= room then chunk == line
    else exists cut :: Fits(cut, line, room - 4) && chunk == RStrip(cut) + ELLIPSIS
  }

  /** The bytes left for one more line in front of the kept ones. */
  function Room(cap: nat, prefix: string, kept: seq<string>): int {
    cap - ByteLength(prefix) - Bulk(kept)
  }

  ghost predicate KeptAt(kept: seq<string>, i: nat, lines: seq<string>, prefix: string, cap: nat)
    requires i < |kept| <= |lines|
  {
    && kept[i] != "" && kept[i] != ELLIPSIS
    && KeptLine(kept[i], lines[|lines| - |kept| + i], Room(cap, prefix, kept[i + 1..]))
  }

  /** Every kept line is what its line becomes in the room behind it. */
  ghost predicate KeptRun(kept: seq<string>, lines: seq<string>, prefix: string, cap: nat) {
    && |kept| <= |lines|
    && forall i :: 0 <= i < |kept| ==> KeptAt(kept, i, lines, prefix, cap)
  }

  /** The run ends only for want of lines or room: the line before it would leave nothing. */
  ghost predicate RunEnds(kept: seq<string>, lines: seq<string>, prefix: string, cap: nat)
    requires |kept| <= |lines|
  {
    || |kept| == |lines|
    || Room(cap, prefix, kept) <= 1
    || KeptLine("", lines[|lines| - |kept| - 1], Room(cap, prefix, kept))
    || KeptLine(ELLIPSIS, lines[|lines| - |kept| - 1], Room(cap, prefix, kept))
  }

  function JoinLines(lines: seq<string>): string {
    if lines == [] then "" else if |lines| == 1 then lines[0] else lines[0] + "\n" + JoinLines(lines[1..])
  }

  /** The bytes of the lines, each with one for its line break. */
  function Bulk(lines: seq<string>): nat {
    if lines == [] then 0 else ByteLength(lines[0]) + 1 + Bulk(lines[1..])
  }

  lemma {:induction false} JoinBulk(lines: seq<string>)
    requires lines != []
    ensures ByteLength(JoinLines(lines)) + 1 == Bulk(lines)
  {
    hide ByteLength;
    if |lines| == 1 {
      assert Bulk(lines[1..]) == 0;
    } else {
      JoinBulk(lines[1..]);
      LengthAdds(lines[0], "\n");
      LengthAdds(lines[0] + "\n", JoinLines(lines[1..]));
      NewlineLength();
    }
  }

  lemma NewlineLength()
    ensures ByteLength("\n") == 1 && ByteLength(ELLIPSIS) == 3
  {
    assert "\n"[1..] == "" && ELLIPSIS[1..] == "" && ELLIPSIS[0] as int == 0x2026;
  }

  lemma {:induction false} RStripPrefix(s: string)
    ensures IsPrefix(RStrip(s), s) && ByteLength(RStrip(s)) <= ByteLength(s)
  {
    if s != "" && IsSpace(s[|s| - 1]) {
      var init := s[..|s| - 1];
      RStripPrefix(init);
      LengthAdds(init, s[|s| - 1..]);
      assert s == init + s[|s| - 1..];
      assert s[..|RStrip(init)|] == init[..|RStrip(init)|];
    } else {
      assert s[..|s|] == s;
    }
  }

  /** compact_thread_context's packing of the eligible lines: it keeps the longest run of the
      latest lines, in order, within the cap. */
  method CompactThreadContext(lines: seq<string>, prefix: string, cap: nat) returns (r: string, ghost kept: seq<string>)
    requires prefix != ""
    ensures ByteLength(r) <= cap
    ensures KeptRun(kept, lines, prefix, cap) && RunEnds(kept, lines, prefix, cap)
    ensures r == if kept == [] then "" else prefix + JoinLines(kept)
  {
    hide ByteLength, Encode, DecodeIgnore, JoinLines, Bulk, RStrip, KeptLine, KeptAt, Fits;
    EmptyLength();
    BulkEmpty();
    var packed: seq<string> := [];
    var used := 0;
    var prefixN := ByteLength(prefix);
    for k := 0 to |lines|
      invariant |packed| == k && used == Bulk(packed)
      invariant packed != [] ==> prefixN + used <= cap
      invariant KeptRun(packed, lines, prefix, cap)
    {
      var line := lines[|lines| - 1 - k];
      var room := cap - prefixN - used;
      if room <= 1 { break; }
      var chunk := line;
      var raw := Encode(line);
      LengthIs(line);
      if |raw| + 1 > room {
        var cut := DecodeIgnore(raw[..if room > 4 then room - 4 else 0]);
        SliceFits(line, if room > 4 then room - 4 else 0);
        ShortLine(cut, line, room);
        chunk := RStrip(cut) + ELLIPSIS;
      } else {
        WholeLine(line, room);
      }
      if chunk == "" || chunk == ELLIPSIS { break; }
      RunCons(chunk, packed, lines, prefix, cap);
      packed := [chunk] + packed;
      used := used + ByteLength(chunk) + 1;
      if prefixN + used >= cap { break; }
    }
    kept := packed;
    if packed == [] { return "", kept; }
    JoinBulk(packed);
    LengthAdds(prefix, JoinLines(packed));
    r := prefix + JoinLines(packed);
  }

  /** Cutting the bytes and ignoring what is no character keeps the longest fitting prefix. */
  lemma {:induction false} SliceFits(s: string, n: nat)
    requires n <= |Encode(s)|
    ensures Fits(DecodeIgnore(Encode(s)[..n]), s, n)
    decreases |s|
  {
    hide EncodeChar, DecodeIgnore;
    if s == "" {
      assert Encode(s)[..n] == [];
      IgnoreNothing();
    } else {
      var e, rest := EncodeChar(s[0]), s[1..];
      OneLength(s[0]);
      if n < |e| {
        assert Encode(s)[..n] == e[..n];
        CutIgnored(s[0], n);
        assert s[..1] == [s[0]];
      } else {
        var m := n - |e|;
        var r := DecodeIgnore(Encode(rest)[..m]);
        SliceFits(rest, m);
        assert Encode(s)[..n] == e + Encode(rest)[..m];
        IgnoreCons(s[0], Encode(rest)[..m]);
        FitsCons(s, r, m);
      }
    }
  }

  lemma IgnoreNothing()
    ensures DecodeIgnore([]) == ""
  {}

  lemma OneLength(c: char)
    ensures ByteLength([c]) == |EncodeChar(c)|
  {
    assert [c][1..] == "" && Encode("") == [];
  }

  lemma FitsCons(s: string, r: string, m: nat)
    requires s != "" && Fits(r, s[1..], m)
    ensures Fits([s[0]] + r, s, m + |EncodeChar(s[0])|)
  {
    hide ByteLength, EncodeChar;
    var all := [s[0]] + r;
    OneLength(s[0]);
    EmptyLength();
    LengthAdds([s[0]], r);
    assert s[..|all|] == [s[0]] + s[1..][..|r|];
    if |all| < |s| {
      LengthAdds([s[0]], s[1..][..|r| + 1]);
      assert s[..|all| + 1] == [s[0]] + s[1..][..|r| + 1];
    }
  }

  lemma ShortLine(cut: string, line: string, room: int)
    requires 1 < room < ByteLength(line) + 1
    requires Fits(cut, line, if room > 4 then room - 4 else 0)
    ensures KeptLine(RStrip(cut) + ELLIPSIS, line, room)
    ensures RStrip(cut) + ELLIPSIS == ELLIPSIS || ByteLength(RStrip(cut) + ELLIPSIS) + 1 <= room
  {
    hide ByteLength, RStrip;
    RStripPrefix(cut);
    NewlineLength();
    EmptyLength();
    LengthAdds(RStrip(cut), ELLIPSIS);
    assert "" + ELLIPSIS == ELLIPSIS;
    SomeLength(RStrip(cut));
    SomeLength(cut);
    RoomBelow(cut, line, room - 4);
  }

  lemma WholeLine(line: string, room: int)
    requires ByteLength(line) + 1 <= room
    ensures KeptLine(line, line, room)
  {}

  lemma RunCons(chunk: string, kept: seq<string>, lines: seq<string>, prefix: string, cap: nat)
    requires KeptRun(kept, lines, prefix, cap) && |kept| < |lines|
    requires chunk != "" && chunk != ELLIPSIS
    requires KeptLine(chunk, lines[|lines| - 1 - |kept|], Room(cap, prefix, kept))
    ensures KeptRun([chunk] + kept, lines, prefix, cap)
    ensures Bulk([chunk] + kept) == ByteLength(chunk) + 1 + Bulk(kept)
  {
    hide ByteLength, KeptLine, Room, Bulk, KeptAt;
    BulkCons(chunk, kept);
    KeptFirst(chunk, kept, lines, prefix, cap);
    var after := [chunk] + kept;
    forall i | 0 <= i < |after|
      ensures KeptAt(after, i, lines, prefix, cap)
    {
      if i > 0 { KeptLater(chunk, kept, i, lines, prefix, cap); }
    }
  }

  lemma KeptFirst(chunk: string, kept: seq<string>, lines: seq<string>, prefix: string, cap: nat)
    requires |kept| < |lines| && chunk != "" && chunk != ELLIPSIS
    requires KeptLine(chunk, lines[|lines| - 1 - |kept|], Room(cap, prefix, kept))
    ensures KeptAt([chunk] + kept, 0, lines, prefix, cap)
  {
    hide KeptLine, Room;
    assert ([chunk] + kept)[1..] == kept;
  }

  lemma KeptLater(chunk: string, kept: seq<string>, i: nat, lines: seq<string>, prefix: string, cap: nat)
    requires 0 < i <= |kept| < |lines| && KeptAt(kept, i - 1, lines, prefix, cap)
    ensures KeptAt([chunk] + kept, i, lines, prefix, cap)
  {
    hide KeptLine, Room;
    assert ([chunk] + kept)[i + 1..] == kept[i..];
  }

  lemma SomeLength(s: string)
    ensures s != "" ==> ByteLength(s) > 0
  {}

  lemma BulkEmpty()
    ensures Bulk([]) == 0
  {}

  lemma BulkCons(line: string, lines: seq<string>)
    ensures Bulk([line] + lines) == ByteLength(line) + 1 + Bulk(lines)
  {
    hide ByteLength;
    assert ([line] + lines)[1..] == lines;
  }

  // ---------------------------------------------------------------------------
  // The session resume

  const RESUME_CLOSING := "\n</session_resume>"

  /** The packing at the end of format_session_resume: the facts, cut to leave room for the
      closing line. */
  method FormatSessionResume(lines: seq<string>, maxBytes: nat) returns (r: Option<string>)
    ensures r.Some? ==> ByteLength(r.value) <= maxBytes
    ensures exists cut ::
              && Fits(cut, JoinLines(lines), maxBytes - ByteLength(RESUME_CLOSING))
              && r == if RStrip(cut) == "" then None else Some(RStrip(cut) + RESUME_CLOSING)
  {
    hide ByteLength, JoinLines, RStrip;
    var room := maxBytes - ByteLength(RESUME_CLOSING);
    var cut := TruncateUtf8(JoinLines(lines), if room < 0 then 0 else room);
    RoomBelow(cut, JoinLines(lines), room);
    var body := RStrip(cut);
    RStripPrefix(cut);
    if body == "" { return None; }
    LengthAdds(body, RESUME_CLOSING);
    return Some(body + RESUME_CLOSING);
  }

  /** With no room or less, only the empty text fits. */
  lemma RoomBelow(cut: string, value: string, room: int)
    requires Fits(cut, value, if room < 0 then 0 else room)
    ensures Fits(cut, value, room)
  {
    hide ByteLength;
    SomeLength(cut);
    if |cut| < |value| { SomeLength(value[..|cut| + 1]); }
  }
}
