/** The splitting loop of `send_html` (bot.py): the formatted reply is cut
    at blank lines into paragraphs, which are packed greedily into parts
    of at most `TG_MAX_LEN` characters; a paragraph too long for one part
    is cut into slices of exactly that length. */
module TelegramSplit {
  import opened PyStrings

  const TG_MAX_LEN: nat := 3900
  const PARAGRAPH_BREAK: string := "\n\n"

  /** The parts one after the other. */
  function Concat(parts: seq<string>): string {
    if parts == [] then [] else parts[0] + Concat(parts[1..])
  }

  lemma NonSpaceConcatSnoc(parts: seq<string>, p: string)
    ensures NonSpace(Concat(parts + [p])) == NonSpace(Concat(parts)) + NonSpace(p)
  {
    ConcatSnoc(parts, p);
    NonSpaceConcat(Concat(parts), p);
  }

  lemma {:induction false} NonSpaceAllSnoc(xs: seq<string>, x: string)
    ensures NonSpaceAll(xs + [x]) == NonSpaceAll(xs) + NonSpace(x)
  {
    if xs == [] {
      assert xs + [x] == [x];
      assert [x][1..] == [];
      assert NonSpaceAll([x]) == NonSpace(x) + NonSpaceAll([]);
    } else {
      var ys := xs + [x];
      assert ys[0] == xs[0];
      assert ys[1..] == xs[1..] + [x];
      NonSpaceAllSnoc(xs[1..], x);
      assert NonSpaceAll(ys) == NonSpace(xs[0]) + NonSpaceAll(xs[1..] + [x]);
    }
  }

  lemma BreakIsBlank()
    ensures NonSpace(PARAGRAPH_BREAK) == []
  {
    NonSpaceOfSpaces(PARAGRAPH_BREAK);
  }

  /** Packing a paragraph onto the buffer keeps the visible text of both. */
  lemma PackKeepsText(buf: string, chunk: string)
    ensures NonSpace(Strip(buf + PARAGRAPH_BREAK + chunk)) == NonSpace(buf) + NonSpace(chunk)
  {
    var head := buf + PARAGRAPH_BREAK;
    var whole := head + chunk;
    StripKeepsText(whole);
    NonSpaceConcat(head, chunk);
    NonSpaceConcat(buf, PARAGRAPH_BREAK);
    BreakIsBlank();
    assert NonSpace(head) == NonSpace(buf);
  }

  /** The paragraphs hold the visible text of the whole reply. */
  lemma ParagraphsKeepText(formatted: string)
    ensures NonSpaceAll(SplitOn(formatted, PARAGRAPH_BREAK)) == NonSpace(formatted)
  {
    JoinSplit(formatted, PARAGRAPH_BREAK);
    BreakIsBlank();
    NonSpaceJoin(PARAGRAPH_BREAK, SplitOn(formatted, PARAGRAPH_BREAK));
  }

  /** Every part is non-empty and at most `maxLen` long. */
  predicate PartsFit(parts: seq<string>, maxLen: nat) {
    forall k :: 0 <= k < |parts| ==> 0 < |parts[k]| <= maxLen
  }

  lemma PartsFitAppend(a: seq<string>, b: seq<string>, maxLen: nat)
    requires PartsFit(a, maxLen) && PartsFit(b, maxLen)
    ensures PartsFit(a + b, maxLen)
  {
  }

  lemma {:induction false} ConcatSnoc(parts: seq<string>, p: string)
    ensures Concat(parts + [p]) == Concat(parts) + p
  {
    if parts == [] {
      assert parts + [p] == [p];
      assert [p][1..] == [];
    } else {
      assert (parts + [p])[1..] == parts[1..] + [p];
      ConcatSnoc(parts[1..], p);
    }
  }

  lemma {:induction false} ConcatAppend(a: seq<string>, b: seq<string>)
    ensures Concat(a + b) == Concat(a) + Concat(b)
  {
    if a == [] {
      assert a + b == b;
    } else {
      assert (a + b)[1..] == a[1..] + b;
      ConcatAppend(a[1..], b);
    }
  }

  // ---------------------------------------------------------------------
  // The specification: what the loops of `send_html` compute
  // ---------------------------------------------------------------------

  /** The slices the inner `while` loop cuts off `chunk`, in order. */
  function Slices(chunk: string, maxLen: nat): seq<string>
    requires maxLen > 0
    decreases |chunk|
  {
    if |chunk| <= maxLen then [] else [chunk[..maxLen]] + Slices(chunk[maxLen..], maxLen)
  }

  /** What is left of `chunk` once the slices are cut off. */
  function Remainder(chunk: string, maxLen: nat): string
    requires maxLen > 0
    decreases |chunk|
  {
    if |chunk| <= maxLen then chunk else Remainder(chunk[maxLen..], maxLen)
  }

  /** Every slice is exactly `maxLen` long, the remainder fits, is empty
      only for an empty paragraph, and the slices followed by the remainder
      are the paragraph. */
  lemma {:induction false} SlicesCutChunk(chunk: string, maxLen: nat)
    requires maxLen > 0
    ensures forall k :: 0 <= k < |Slices(chunk, maxLen)| ==> |Slices(chunk, maxLen)[k]| == maxLen
    ensures |Remainder(chunk, maxLen)| <= maxLen
    ensures Remainder(chunk, maxLen) == [] <==> chunk == []
    ensures Concat(Slices(chunk, maxLen)) + Remainder(chunk, maxLen) == chunk
  {
    if |chunk| > maxLen {
      var tail := chunk[maxLen..];
      SlicesCutChunk(tail, maxLen);
      var ss := Slices(chunk, maxLen);
      assert ss == [chunk[..maxLen]] + Slices(tail, maxLen);
      assert ss[1..] == Slices(tail, maxLen);
      assert chunk == chunk[..maxLen] + tail;
    }
  }

  /** The `k`-th slice is the `k`-th run of `maxLen` characters. */
  lemma {:induction false} SliceIsRun(chunk: string, maxLen: nat, k: nat)
    requires maxLen > 0 && k < |Slices(chunk, maxLen)|
    ensures (k + 1) * maxLen <= |chunk|
    ensures Slices(chunk, maxLen)[k] == chunk[k * maxLen..(k + 1) * maxLen]
  {
    var tail := chunk[maxLen..];
    assert Slices(chunk, maxLen) == [chunk[..maxLen]] + Slices(tail, maxLen);
    if k > 0 {
      SliceIsRun(tail, maxLen, k - 1);
      assert k * maxLen == maxLen + (k - 1) * maxLen;
      assert (k + 1) * maxLen == maxLen + k * maxLen;
    }
  }

  /** The remainder is everything after the last slice. */
  lemma {:induction false} RemainderIsTail(chunk: string, maxLen: nat)
    requires maxLen > 0
    ensures |Slices(chunk, maxLen)| * maxLen <= |chunk|
    ensures Remainder(chunk, maxLen) == chunk[|Slices(chunk, maxLen)| * maxLen..]
  {
    if |chunk| > maxLen {
      var tail := chunk[maxLen..];
      RemainderIsTail(tail, maxLen);
      var n := |Slices(tail, maxLen)|;
      var m := n * maxLen;
      assert |Slices(chunk, maxLen)| == n + 1;
      assert Remainder(chunk, maxLen) == Remainder(tail, maxLen);
      MulSucc(n, maxLen);
      assert chunk[maxLen + m..] == tail[m..];
    }
  }

  lemma MulSucc(n: nat, m: nat)
    ensures (n + 1) * m == m + n * m
  {
  }

  /** The parts emitted so far and the buffer. */
  datatype Packing = Packing(parts: seq<string>, buf: string)

  /** `(buf + "\n\n" + chunk).strip() if buf else chunk.strip()`. */
  function Candidate(buf: string, chunk: string): string {
    if buf != [] then Strip(buf + PARAGRAPH_BREAK + chunk) else Strip(chunk)
  }

  /** The parts once a non-empty buffer is appended. */
  function Flushed(p: Packing): seq<string> {
    if p.buf != [] then p.parts + [p.buf] else p.parts
  }

  /** One paragraph: packed onto the buffer when the candidate fits;
      otherwise the buffer is flushed, the paragraph's slices follow it and
      its remainder becomes the buffer. */
  function PackStep(p: Packing, chunk: string, maxLen: nat): Packing
    requires maxLen > 0
  {
    var candidate := Candidate(p.buf, chunk);
    if |candidate| <= maxLen then Packing(p.parts, candidate)
    else Packing(Flushed(p) + Slices(chunk, maxLen), Remainder(chunk, maxLen))
  }

  /** The state after the outer loop has seen `chunks`. */
  function PackChunks(chunks: seq<string>, maxLen: nat): Packing
    requires maxLen > 0
  {
    if chunks == [] then Packing([], [])
    else PackStep(PackChunks(chunks[..|chunks| - 1], maxLen), chunks[|chunks| - 1], maxLen)
  }

  /** The parts `send_html` sends for the formatted reply. */
  function SplitParts(formatted: string, maxLen: nat): seq<string>
    requires maxLen > 0
  {
    if formatted == [] then [] else Flushed(PackChunks(SplitOn(formatted, PARAGRAPH_BREAK), maxLen))
  }

  lemma FlushedKeeps(p: Packing, maxLen: nat)
    requires PartsFit(p.parts, maxLen) && |p.buf| <= maxLen
    ensures PartsFit(Flushed(p), maxLen)
    ensures NonSpace(Concat(Flushed(p))) == NonSpace(Concat(p.parts)) + NonSpace(p.buf)
  {
    if p.buf != [] {
      NonSpaceConcatSnoc(p.parts, p.buf);
    }
  }

  /** Parts and buffer within bounds. */
  predicate Fits(p: Packing, maxLen: nat) {
    PartsFit(p.parts, maxLen) && |p.buf| <= maxLen
  }

  /** The visible characters of the parts, then of the buffer. */
  function Visible(p: Packing): string {
    NonSpace(Concat(p.parts)) + NonSpace(p.buf)
  }

  /** A paragraph packed onto the buffer keeps the bounds and the text. */
  lemma PackedKeeps(p: Packing, chunk: string, maxLen: nat)
    requires Fits(p, maxLen) && |Candidate(p.buf, chunk)| <= maxLen
    ensures Fits(Packing(p.parts, Candidate(p.buf, chunk)), maxLen)
    ensures Visible(Packing(p.parts, Candidate(p.buf, chunk))) == Visible(p) + NonSpace(chunk)
  {
    if p.buf != [] {
      PackKeepsText(p.buf, chunk);
    } else {
      StripKeepsText(chunk);
    }
  }

  /** Flushing the buffer and hard-splitting the paragraph keeps the bounds
      and the text. */
  lemma OverflowKeeps(p: Packing, chunk: string, maxLen: nat)
    requires maxLen > 0 && Fits(p, maxLen)
    ensures Fits(Packing(Flushed(p) + Slices(chunk, maxLen), Remainder(chunk, maxLen)), maxLen)
    ensures Visible(Packing(Flushed(p) + Slices(chunk, maxLen), Remainder(chunk, maxLen)))
         == Visible(p) + NonSpace(chunk)
  {
    var flushed := Flushed(p);
    var slices := Slices(chunk, maxLen);
    var rest := Remainder(chunk, maxLen);
    FlushedKeeps(p, maxLen);
    SlicesCutChunk(chunk, maxLen);
    PartsFitAppend(flushed, slices, maxLen);
    AppendKeepsText(flushed, slices, rest, chunk);
  }

  lemma AppendKeepsText(a: seq<string>, b: seq<string>, rest: string, chunk: string)
    requires Concat(b) + rest == chunk
    ensures NonSpace(Concat(a + b)) + NonSpace(rest) == NonSpace(Concat(a)) + NonSpace(chunk)
  {
    ConcatAppend(a, b);
    var ca, cb := Concat(a), Concat(b);
    NonSpaceConcat(ca, cb);
    NonSpaceConcat(cb, rest);
    var x, y, z := NonSpace(ca), NonSpace(cb), NonSpace(rest);
    assert NonSpace(Concat(a + b)) == x + y;
    assert NonSpace(chunk) == y + z;
    AppendAssoc(x, y, z);
  }

  lemma AppendAssoc(x: string, y: string, z: string)
    ensures (x + y) + z == x + (y + z)
  {
  }

  /** One paragraph keeps every part within bounds and the buffer within
      `maxLen`, and loses no visible character. */
  lemma PackStepKeeps(p: Packing, chunk: string, maxLen: nat)
    requires maxLen > 0 && Fits(p, maxLen)
    ensures Fits(PackStep(p, chunk, maxLen), maxLen)
    ensures Visible(PackStep(p, chunk, maxLen)) == Visible(p) + NonSpace(chunk)
  {
    if |Candidate(p.buf, chunk)| <= maxLen {
      PackedKeeps(p, chunk, maxLen);
    } else {
      OverflowKeeps(p, chunk, maxLen);
    }
  }

  lemma {:induction false} PackChunksKeeps(chunks: seq<string>, maxLen: nat)
    requires maxLen > 0
    ensures Fits(PackChunks(chunks, maxLen), maxLen)
    ensures Visible(PackChunks(chunks, maxLen)) == NonSpaceAll(chunks)
  {
    if chunks != [] {
      var n := |chunks| - 1;
      var init := chunks[..n];
      var last := chunks[n];
      PackChunksKeeps(init, maxLen);
      PackStepKeeps(PackChunks(init, maxLen), last, maxLen);
      assert chunks == init + [last];
      NonSpaceAllSnoc(init, last);
    }
  }

  /** Every part is non-empty and at most `maxLen` long; together the parts
      hold the reply's visible text in its order, losing and adding nothing
      but whitespace; a reply with visible text yields at least one part. */
  lemma SplitPartsKeep(formatted: string, maxLen: nat)
    requires maxLen > 0
    ensures PartsFit(SplitParts(formatted, maxLen), maxLen)
    ensures NonSpace(Concat(SplitParts(formatted, maxLen))) == NonSpace(formatted)
    ensures NonSpace(formatted) != [] ==> SplitParts(formatted, maxLen) != []
  {
    if formatted != [] {
      var chunks := SplitOn(formatted, PARAGRAPH_BREAK);
      PackChunksKeeps(chunks, maxLen);
      FlushedKeeps(PackChunks(chunks, maxLen), maxLen);
      ParagraphsKeepText(formatted);
    }
  }

  // ---------------------------------------------------------------------
  // The loops
  // ---------------------------------------------------------------------

  /** The inner loop of `send_html`: appends the slices of an oversized
      paragraph to the parts and returns the remainder. */
  method HardSplit(parts: seq<string>, chunk: string, maxLen: nat) returns (parts': seq<string>, rest: string)
    requires maxLen > 0
    ensures parts' == parts + Slices(chunk, maxLen)
    ensures rest == Remainder(chunk, maxLen)
  {
    parts', rest := parts, chunk;
    while |rest| > maxLen
      invariant parts' + Slices(rest, maxLen) == parts + Slices(chunk, maxLen)
      invariant Remainder(rest, maxLen) == Remainder(chunk, maxLen)
      decreases |rest|
    {
      assert Slices(rest, maxLen) == [rest[..maxLen]] + Slices(rest[maxLen..], maxLen);
      parts' := parts' + [rest[..maxLen]];
      rest := rest[maxLen..];
    }
  }

  /** One turn of the outer loop of `send_html`: packs the paragraph onto
      the buffer when the stripped result fits; otherwise flushes a
      non-empty buffer and hard-splits the paragraph, whose remainder
      becomes the buffer. */
  method PackParagraph(parts: seq<string>, buf: string, chunk: string, maxLen: nat)
    returns (parts': seq<string>, buf': string)
    requires maxLen > 0
    ensures |Candidate(buf, chunk)| <= maxLen ==> parts' == parts && buf' == Candidate(buf, chunk)
    ensures |Candidate(buf, chunk)| > maxLen ==>
      && parts' == (if buf != [] then parts + [buf] else parts) + Slices(chunk, maxLen)
      && buf' == Remainder(chunk, maxLen)
  {
    var candidate := if buf != [] then Strip(buf + PARAGRAPH_BREAK + chunk) else Strip(chunk);
    if |candidate| <= maxLen {
      parts', buf' := parts, candidate;
    } else {
      parts' := parts;
      if buf != [] {
        parts' := parts' + [buf];
      }
      parts', buf' := HardSplit(parts', chunk, maxLen);
    }
  }

  /** The loop of `send_html` over the paragraphs, and the final flush
      of the buffer. */
  method PackAll(chunks: seq<string>, maxLen: nat) returns (parts: seq<string>)
    requires maxLen > 0
    ensures parts == Flushed(PackChunks(chunks, maxLen))
  {
    parts := [];
    var buf: string := [];
    var i := 0;
    while i < |chunks|
      invariant 0 <= i <= |chunks|
      invariant Packing(parts, buf) == PackChunks(chunks[..i], maxLen)
    {
      assert chunks[..i + 1][..i] == chunks[..i];
      parts, buf := PackParagraph(parts, buf, chunks[i], maxLen);
      i := i + 1;
    }
    assert chunks[..i] == chunks;
    if buf != [] {
      parts := parts + [buf];
    }
  }

  /** The parts `send_html` sends for the formatted reply, in order. Each
      is non-empty and at most `maxLen` long; together they hold the
      reply's visible text in its order, losing and adding nothing but
      whitespace. */
  method Split(formatted: string, maxLen: nat) returns (parts: seq<string>)
    requires maxLen > 0
    ensures parts == SplitParts(formatted, maxLen)
    ensures formatted == [] ==> parts == []
    ensures forall k :: 0 <= k < |parts| ==> 0 < |parts[k]| <= maxLen
    ensures NonSpace(Concat(parts)) == NonSpace(formatted)
    ensures NonSpace(formatted) != [] ==> parts != []
  {
    if formatted == [] {
      return [];
    }
    parts := PackAll(SplitOn(formatted, PARAGRAPH_BREAK), maxLen);
    SplitPartsKeep(formatted, maxLen);
  }
}
