/**
 * parseSSE (lib/chat/stream.ts): the response text is cut into blocks at
 * every "\n\n", chunk by chunk, with a carry-over buffer.
 */
module SseFraming {
  import opened Text

  /** The text before each "\n\n" of a buffer, and the text left over after the last one. */
  datatype Extraction = Extraction(pieces: seq<string>, rest: string)

  /** No blank line inside: no "\n" directly followed by another. */
  predicate NoBreak(s: string) {
    forall j :: 0 <= j < |s| - 1 ==> !(s[j] == '\n' && s[j + 1] == '\n')
  }

  /** Not containing "\n\n" is having no break. */
  lemma NoBreakIsAbsence(s: string)
    ensures NoBreak(s) <==> !Contains(s, "\n\n")
  {
    if Contains(s, "\n\n") {
      var j := IndexOf(s, "\n\n");
      IndexOfFound(s, "\n\n");
      assert s[j..j + 2] == "\n\n";
      assert s[j] == '\n' && s[j + 1] == '\n';
    } else {
      forall j | 0 <= j < |s| - 1 ensures !(s[j] == '\n' && s[j + 1] == '\n') {
        IndexOfFromFirst(s, "\n\n", 0, j);
        assert s[j..j + 2] == [s[j], s[j + 1]];
      }
    }
  }

  /** The text before the first "\n\n" (all of it when there is none) has no break. */
  lemma NoBreakBeforeFirst(buf: string)
    ensures var i := IndexOf(buf, "\n\n");
      NoBreak(if i == -1 then buf else buf[..i])
  {
    var i := IndexOf(buf, "\n\n");
    var t := if i == -1 then buf else buf[..i];
    forall j | 0 <= j < |t| - 1 ensures !(t[j] == '\n' && t[j + 1] == '\n') {
      IndexOfFromFirst(buf, "\n\n", 0, j);
      assert buf[j..j + 2] == [buf[j], buf[j + 1]];
    }
  }

  /** An infix of a text with no break has none. */
  lemma NoBreakInfix(s: string, a: nat, b: nat)
    requires NoBreak(s) && a <= b <= |s|
    ensures NoBreak(s[a..b])
  {
    var t := s[a..b];
    forall j | 0 <= j < |t| - 1 ensures !(t[j] == '\n' && t[j + 1] == '\n') {
      assert t[j] == s[a + j] && t[j + 1] == s[a + j + 1];
    }
  }

  /** A block as the read loop emits it: trimmed, not empty, and free of "\n\n". */
  predicate IsBlock(b: string) {
    b != "" && IsTrimmed(b) && NoBreak(b)
  }

  /** The inner loop of parseSSE on one buffer, before trimming: cut at every "\n\n", first to last. */
  function Cut(buf: string): Extraction
    decreases |buf|
  {
    var i := IndexOf(buf, "\n\n");
    if i == -1 then Extraction([], buf)
    else
      var e := Cut(buf[i + 2..]);
      Extraction([buf[..i]] + e.pieces, e.rest)
  }

  /** No piece and no leftover holds "\n\n". */
  lemma {:induction false} CutShape(buf: string)
    ensures forall k :: 0 <= k < |Cut(buf).pieces| ==> NoBreak(Cut(buf).pieces[k])
    ensures NoBreak(Cut(buf).rest)
    decreases |buf|
  {
    var i := IndexOf(buf, "\n\n");
    NoBreakBeforeFirst(buf);
    if i != -1 {
      CutShape(buf[i + 2..]);
    }
  }

  /** Cutting a buffer extended by `c` is cutting it, then cutting its leftover extended by `c`. */
  lemma {:induction false} CutAppend(t: string, c: string)
    ensures var e := Cut(t);
      var e' := Cut(e.rest + c);
      Cut(t + c) == Extraction(e.pieces + e'.pieces, e'.rest)
    decreases |t|
  {
    var i := IndexOf(t, "\n\n");
    if i != -1 {
      var tc := t + c;
      IndexOfAppend(t, c, "\n\n");
      assert tc[..i] == t[..i];
      assert tc[i + 2..] == t[i + 2..] + c;
      var e := Cut(t[i + 2..]);
      var e' := Cut(e.rest + c);
      CutAppend(t[i + 2..], c);
      assert [t[..i]] + (e.pieces + e'.pieces) == ([t[..i]] + e.pieces) + e'.pieces;
    }
  }

  /** A cut piece is emitted trimmed, and only when that leaves some text. */
  function Kept(piece: string): seq<string> {
    var block := Trim(piece);
    if block != "" then [block] else []
  }

  /** The blocks the pieces give, in order. */
  function Blocks(pieces: seq<string>): seq<string> {
    if pieces == [] then [] else Blocks(pieces[..|pieces| - 1]) + Kept(pieces[|pieces| - 1])
  }

  lemma {:induction false} BlocksAppend(a: seq<string>, b: seq<string>)
    ensures Blocks(a + b) == Blocks(a) + Blocks(b)
    decreases |b|
  {
    if b == [] {
      assert a + b == a;
    } else {
      assert (a + b)[..|a + b| - 1] == a + b[..|b| - 1];
      assert (a + b)[|a + b| - 1] == b[|b| - 1];
      BlocksAppend(a, b[..|b| - 1]);
    }
  }

  /** Pieces free of "\n\n" give blocks in the shape the read loop promises. */
  lemma {:induction false} BlocksShape(pieces: seq<string>)
    requires forall k :: 0 <= k < |pieces| ==> NoBreak(pieces[k])
    ensures forall k :: 0 <= k < |Blocks(pieces)| ==> IsBlock(Blocks(pieces)[k])
    decreases |pieces|
  {
    if pieces != [] {
      var init := pieces[..|pieces| - 1];
      var last := pieces[|pieces| - 1];
      BlocksShape(init);
      TrimIsTrimmed(last);
      TrimIsInfix(last);
      NoBreakInfix(last, |last| - |TrimStart(last)|, |last| - |TrimStart(last)| + |Trim(last)|);
      var bs := Blocks(pieces);
      forall k | 0 <= k < |bs| ensures IsBlock(bs[k]) {
        if k < |Blocks(init)| {
          assert bs[k] == Blocks(init)[k];
        }
      }
    }
  }

  /** What parseSSE yields for the whole response text: the blocks cut, then a non-blank leftover, untrimmed. */
  function SseBlocks(text: string): seq<string> {
    var e := Cut(text);
    Blocks(e.pieces) + (if Trim(e.rest) != "" then [e.rest] else [])
  }

  /**
   * Every block carries text and holds no "\n\n"; all but the last are
   * trimmed, and only a leftover without "\n\n" after it may be untrimmed.
   */
  lemma SseBlocksShape(text: string)
    ensures var blocks := SseBlocks(text);
      forall k :: 0 <= k < |blocks| ==>
        && Trim(blocks[k]) != "" && NoBreak(blocks[k])
        && (k < |blocks| - 1 ==> IsTrimmed(blocks[k]))
  {
    var blocks := SseBlocks(text);
    var e := Cut(text);
    CutShape(text);
    BlocksShape(e.pieces);
    forall k | 0 <= k < |blocks|
      ensures Trim(blocks[k]) != "" && NoBreak(blocks[k])
      ensures k < |blocks| - 1 ==> IsTrimmed(blocks[k])
    {
      if k < |Blocks(e.pieces)| {
        assert blocks[k] == Blocks(e.pieces)[k];
        TrimOfTrimmed(blocks[k]);
      }
    }
  }

  /** One turn of the inner read loop: the piece before the first "\n\n" is cut off the buffer. */
  lemma CutUnfold(buffer: string)
    requires IndexOf(buffer, "\n\n") != -1
    ensures var i := IndexOf(buffer, "\n\n");
      Cut(buffer) == Extraction([buffer[..i]] + Cut(buffer[i + 2..]).pieces, Cut(buffer[i + 2..]).rest)
  {
  }

  /** The piece cut first joins the pieces already cut. */
  lemma CutStep(pieces: seq<string>, first: string, e: Extraction, whole: Extraction)
    requires whole == Extraction([first] + e.pieces, e.rest)
    ensures pieces + whole.pieces == (pieces + [first]) + e.pieces && whole.rest == e.rest
  {
  }

  /** A piece cut last contributes its block last. */
  lemma BlocksSnoc(pieces: seq<string>, piece: string)
    ensures Blocks(pieces + [piece]) == Blocks(pieces) + Kept(piece)
  {
    assert (pieces + [piece])[..|pieces|] == pieces;
  }

  /** The text of the first `i + 1` chunks extends the text of the first `i`. */
  lemma ConcatPrefix(chunks: seq<string>, i: nat)
    requires i < |chunks|
    ensures Concat(chunks[..i + 1]) == Concat(chunks[..i]) + chunks[i]
  {
    assert chunks[..i + 1][..i] == chunks[..i];
  }

  /**
   * The inner read loop of parseSSE on one buffer: every complete block is
   * cut off, trimmed and kept when not blank; what follows the last "\n\n"
   * stays in the buffer.
   */
  method CutBuffer(buffer: string) returns (blocks: seq<string>, rest: string)
    ensures blocks == Blocks(Cut(buffer).pieces) && rest == Cut(buffer).rest
  {
    blocks := [];
    rest := buffer;
    ghost var pieces: seq<string> := [];
    var boundary := IndexOf(rest, "\n\n");
    while boundary != -1
      invariant boundary == IndexOf(rest, "\n\n")
      invariant Cut(buffer) == Extraction(pieces + Cut(rest).pieces, Cut(rest).rest)
      invariant blocks == Blocks(pieces)
      decreases |rest|
    {
      var piece := rest[..boundary];
      var block := Trim(piece);
      CutUnfold(rest);
      CutStep(pieces, piece, Cut(rest[boundary + 2..]), Cut(rest));
      BlocksSnoc(pieces, piece);
      rest := rest[boundary + 2..];
      if block != "" {
        blocks := blocks + [block];
      }
      pieces := pieces + [piece];
      boundary := IndexOf(rest, "\n\n");
    }
    assert Cut(rest) == Extraction([], rest);
    assert pieces + [] == pieces;
  }

  /**
   * parseSSE over the chunks the body delivers: each read is appended to
   * the buffer and every complete block cut from it; at the end of the
   * stream a non-blank leftover is yielded once, untrimmed. The result
   * depends only on the text of all chunks together, not on where the
   * chunks split it.
   */
  method ParseSse(chunks: seq<string>) returns (blocks: seq<string>)
    ensures blocks == SseBlocks(Concat(chunks))
  {
    var buffer := "";
    blocks := [];
    var n := 0;
    while n < |chunks|
      invariant 0 <= n <= |chunks|
      invariant Cut(Concat(chunks[..n])).rest == buffer
      invariant blocks == Blocks(Cut(Concat(chunks[..n])).pieces)
    {
      ghost var before := Cut(Concat(chunks[..n]));
      CutAppend(Concat(chunks[..n]), chunks[n]);
      ConcatPrefix(chunks, n);
      buffer := buffer + chunks[n];
      var cut, rest := CutBuffer(buffer);
      BlocksAppend(before.pieces, Cut(buffer).pieces);
      blocks := blocks + cut;
      buffer := rest;
      n := n + 1;
    }
    assert chunks[..n] == chunks;
    if Trim(buffer) != "" {
      blocks := blocks + [buffer];
    }
  }
}
