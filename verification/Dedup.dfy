/** The deduplication estimate: files are cut into parts and the parts into
    chunks, and each chunk counts as all zero, seen before, or new. The content
    cutter and the fingerprint are functions given to a run. */
module Dedup {
  import opened Basics

  datatype Piece = Piece(off: nat, len: nat)

  /** How a body is cut: by a content-defined cutter, or in blocks. */
  datatype Cut = Content(cut: Bytes -> seq<Piece>) | Fixed(size: nat)

  // ----- pieces -----------------------------------------------------------

  function Least(a: nat, b: nat): nat { if a < b then a else b }

  /** The blocks of `size` from offset `o` of `n` bytes. */
  function BlocksFrom(size: nat, o: nat, n: nat): seq<Piece>
    requires size > 0
    decreases n - o
  {
    if o >= n then [] else [Piece(o, Least(size, n - o))] + BlocksFrom(size, o + size, n)
  }

  /** `Cut::pieces` */
  function Pieces(cut: Cut, body: Bytes): seq<Piece>
    requires cut.Fixed? ==> cut.size > 0
  {
    match cut
    case Content(f) => f(body)
    case Fixed(size) => BlocksFrom(size, 0, |body|)
  }

  /** Non-empty pieces that follow one another from `o` to `n`. */
  predicate Tile(ps: seq<Piece>, o: nat, n: nat) {
    if ps == [] then o == n
    else ps[0].off == o && ps[0].len > 0 && o + ps[0].len <= n && Tile(ps[1..], o + ps[0].len, n)
  }

  lemma {:induction false} BlocksTile(size: nat, o: nat, n: nat)
    requires size > 0 && o <= n
    ensures Tile(BlocksFrom(size, o, n), o, n)
    decreases n - o
  {
    if o + size <= n { BlocksTile(size, o + size, n); }
  }

  /** Every block but the last is whole, and starts at a multiple of the size. */
  lemma {:induction false} BlocksAreAligned(size: nat, o: nat, n: nat, k: nat)
    requires size > 0 && k < |BlocksFrom(size, o, n)|
    ensures BlocksFrom(size, o, n)[k].off == o + k * size
    ensures k + 1 < |BlocksFrom(size, o, n)| ==> BlocksFrom(size, o, n)[k].len == size
    decreases n - o
  {
    if k > 0 {
      BlocksAreAligned(size, o + size, n, k - 1);
      assert o + size + (k - 1) * size == o + k * size;
    }
  }

  ghost predicate Inside(ps: seq<Piece>, n: nat) {
    forall i :: 0 <= i < |ps| ==> ps[i].off + ps[i].len <= n
  }

  /** The bytes of each piece. */
  function Slices(body: Bytes, ps: seq<Piece>): (r: seq<Bytes>)
    requires Inside(ps, |body|)
    ensures |r| == |ps| && forall i :: 0 <= i < |ps| ==> r[i] == body[ps[i].off..ps[i].off + ps[i].len]
  {
    if ps == [] then [] else [body[ps[0].off..ps[0].off + ps[0].len]] + Slices(body, ps[1..])
  }

  function Concat(chunks: seq<Bytes>): Bytes {
    if chunks == [] then [] else chunks[0] + Concat(chunks[1..])
  }

  lemma {:induction false} TilesAreInside(ps: seq<Piece>, o: nat, n: nat)
    requires Tile(ps, o, n)
    ensures Inside(ps, n) && o <= n
  {
    if ps != [] { TilesAreInside(ps[1..], o + ps[0].len, n); }
  }

  /** Tiles put back together are the body. */
  lemma {:induction false} TilesAreTheBody(body: Bytes, ps: seq<Piece>, o: nat)
    requires Tile(ps, o, |body|) && Inside(ps, |body|) && o <= |body|
    ensures Concat(Slices(body, ps)) == body[o..]
  {
    if ps != [] {
      var next := o + ps[0].len;
      TilesAreInside(ps[1..], next, |body|);
      TilesAreTheBody(body, ps[1..], next);
      assert body[o..] == body[o..next] + body[next..];
    }
  }

  // ----- the chunks of a body ---------------------------------------------

  /** A cutter whose pieces tile every body. */
  ghost predicate Tiles(cut: Cut) {
    (cut.Fixed? ==> cut.size > 0) && forall body :: Tile(Pieces(cut, body), 0, |body|)
  }

  /** Blocks of any size but 0 tile every body. */
  lemma FixedTiles(size: nat)
    ensures size > 0 ==> Tiles(Fixed(size))
  {
    if size > 0 {
      forall body: Bytes ensures Tile(Pieces(Fixed(size), body), 0, |body|) {
        BlocksTile(size, 0, |body|);
      }
    }
  }

  /** The chunks of one part. */
  function ChunksOfPart(cut: Cut, part: Bytes): (r: seq<Bytes>)
    requires Tiles(cut)
    ensures Concat(r) == part
  {
    TilesAreInside(Pieces(cut, part), 0, |part|);
    TilesAreTheBody(part, Pieces(cut, part), 0);
    Slices(part, Pieces(cut, part))
  }

  ghost predicate AreSlices(r: seq<Bytes>, body: Bytes, ps: seq<Piece>) {
    |r| == |ps| && forall k :: 0 <= k < |ps| ==>
      ps[k].off + ps[k].len <= |body| && r[k] == body[ps[k].off..ps[k].off + ps[k].len]
  }

  /** Rust's `chunks`: the body in blocks of `size`. */
  function Blocks(size: nat, body: Bytes): (r: seq<Bytes>)
    requires size > 0
    ensures Concat(r) == body && AreSlices(r, body, BlocksFrom(size, 0, |body|))
  {
    BlocksTile(size, 0, |body|);
    TilesAreInside(BlocksFrom(size, 0, |body|), 0, |body|);
    TilesAreTheBody(body, BlocksFrom(size, 0, |body|), 0);
    Slices(body, BlocksFrom(size, 0, |body|))
  }

  const MIB := 1_048_576

  /** One part, or parts of so many MiB. */
  function Parts(partMib: nat, body: Bytes): (r: seq<Bytes>)
    ensures Concat(r) == body
  {
    if partMib == 0 || body == [] then
      assert Concat([body][1..]) == [];
      [body]
    else
      Blocks(partMib * MIB, body)
  }

  function ChunksOfParts(cut: Cut, parts: seq<Bytes>): (r: seq<Bytes>)
    requires Tiles(cut)
  {
    if parts == [] then [] else ChunksOfPart(cut, parts[0]) + ChunksOfParts(cut, parts[1..])
  }

  function Chunks(cut: Cut, partMib: nat, body: Bytes): seq<Bytes>
    requires Tiles(cut)
  {
    ChunksOfParts(cut, Parts(partMib, body))
  }

  lemma {:induction false} ConcatJoined(a: seq<Bytes>, b: seq<Bytes>)
    ensures Concat(a + b) == Concat(a) + Concat(b)
  {
    if a == [] {
      assert a + b == b;
    } else {
      assert (a + b)[1..] == a[1..] + b;
      ConcatJoined(a[1..], b);
    }
  }

  lemma {:induction false} ChunksOfPartsConcat(cut: Cut, parts: seq<Bytes>)
    requires Tiles(cut)
    ensures Concat(ChunksOfParts(cut, parts)) == Concat(parts)
  {
    if parts != [] {
      ChunksOfPartsConcat(cut, parts[1..]);
      ConcatJoined(ChunksOfPart(cut, parts[0]), ChunksOfParts(cut, parts[1..]));
    }
  }

  /** However it is uploaded and cut, a body's chunks in order are the body. */
  lemma ChunksAreTheBody(cut: Cut, partMib: nat, body: Bytes)
    requires Tiles(cut)
    ensures Concat(Chunks(cut, partMib, body)) == body
  {
    ChunksOfPartsConcat(cut, Parts(partMib, body));
  }

  /** Every block but the last is whole, and none is empty. */
  lemma BlocksAreWhole(size: nat, body: Bytes, k: nat)
    requires size > 0 && k < |Blocks(size, body)|
    ensures 0 < |Blocks(size, body)[k]| <= size
    ensures k + 1 < |Blocks(size, body)| ==> |Blocks(size, body)[k]| == size
  {
    assert AreSlices(Blocks(size, body), body, BlocksFrom(size, 0, |body|));
    BlocksAreAligned(size, 0, |body|, k);
    BlocksAreShort(size, 0, |body|, k);
  }

  lemma {:induction false} BlocksAreShort(size: nat, o: nat, n: nat, k: nat)
    requires size > 0 && k < |BlocksFrom(size, o, n)|
    ensures 0 < BlocksFrom(size, o, n)[k].len <= size
    decreases n - o
  {
    if k > 0 { BlocksAreShort(size, o + size, n, k - 1); }
  }

  lemma {:induction false} BlocksShift(size: nat, o: nat, n: nat, d: nat, k: nat)
    requires size > 0
    ensures |BlocksFrom(size, o + d, n + d)| == |BlocksFrom(size, o, n)|
    ensures k < |BlocksFrom(size, o, n)| ==>
      var b := BlocksFrom(size, o, n)[k]; BlocksFrom(size, o + d, n + d)[k] == Piece(b.off + d, b.len)
    decreases n - o
  {
    if o < n { BlocksShift(size, o + size, n, d, if k > 0 then k - 1 else 0); }
  }

  /** A block is taken off the front, and the rest goes the same way. */
  lemma BlocksGoOn(a: Bytes, b: Bytes, k: nat)
    requires a != []
    ensures |Blocks(|a|, a + b)| == 1 + |Blocks(|a|, b)| && Blocks(|a|, a + b)[0] == a
    ensures k < |Blocks(|a|, b)| ==> Blocks(|a|, a + b)[k + 1] == Blocks(|a|, b)[k]
  {
    var ps, qs := BlocksFrom(|a|, 0, |a + b|), BlocksFrom(|a|, 0, |b|);
    PiecesGoOn(|a|, |b|, |a + b|, k, ps, qs);
    SlicesGoOn(Blocks(|a|, a + b), Blocks(|a|, b), a, b, ps, qs, k);
  }

  lemma PiecesGoOn(size: nat, n: nat, m: nat, k: nat, ps: seq<Piece>, qs: seq<Piece>)
    requires size > 0 && m == n + size && ps == BlocksFrom(size, 0, m) && qs == BlocksFrom(size, 0, n)
    ensures |ps| == 1 + |qs| && ps[0] == Piece(0, size)
    ensures k < |qs| ==> ps[k + 1] == Piece(qs[k].off + size, qs[k].len)
  {
    BlocksShift(size, 0, n, size, k);
    assert ps == [Piece(0, size)] + BlocksFrom(size, 0 + size, n + size);
  }

  lemma SlicesGoOn(r: seq<Bytes>, s: seq<Bytes>, a: Bytes, b: Bytes, ps: seq<Piece>, qs: seq<Piece>, k: nat)
    requires AreSlices(r, a + b, ps) && AreSlices(s, b, qs) && |ps| == 1 + |qs| && ps[0] == Piece(0, |a|)
    requires k < |qs| ==> ps[k + 1] == Piece(qs[k].off + |a|, qs[k].len)
    ensures r[0] == a
    ensures k < |qs| ==> r[k + 1] == s[k]
  {
  }

  lemma BlocksOn(a: Bytes, b: Bytes)
    requires a != []
    ensures Blocks(|a|, a + b) == [a] + Blocks(|a|, b)
  {
    BlocksGoOn(a, b, 0);
    forall k | 0 <= k < |Blocks(|a|, b)| ensures Blocks(|a|, a + b)[k + 1] == Blocks(|a|, b)[k] {
      BlocksGoOn(a, b, k);
    }
  }

  /** Every part but the last is of the size asked for, and none is empty; without a
      size, or of an empty body, there is one. */
  lemma PartsAreWhole(partMib: nat, body: Bytes, k: nat)
    requires k < |Parts(partMib, body)|
    ensures partMib == 0 || body == [] ==> Parts(partMib, body) == [body]
    ensures partMib > 0 && body != [] ==> 0 < |Parts(partMib, body)[k]| <= partMib * MIB
    ensures k + 1 < |Parts(partMib, body)| ==> |Parts(partMib, body)[k]| == partMib * MIB
  {
    if partMib > 0 && body != [] { BlocksAreWhole(partMib * MIB, body, k); }
  }

  /** A chunk never crosses from one part into the next: the first part is cut on its
      own, and then the rest. */
  lemma CutPartByPart(cut: Cut, partMib: nat, a: Bytes, b: Bytes)
    requires Tiles(cut) && |a| == partMib * MIB && a != [] && b != []
    ensures Chunks(cut, partMib, a + b) == ChunksOfPart(cut, a) + Chunks(cut, partMib, b)
  {
    BlocksOn(a, b);
    assert Parts(partMib, a + b) == [a] + Parts(partMib, b);
    ChunksOn(cut, a, Parts(partMib, b));
  }

  lemma ChunksOn(cut: Cut, a: Bytes, parts: seq<Bytes>)
    requires Tiles(cut)
    ensures ChunksOfParts(cut, [a] + parts) == ChunksOfPart(cut, a) + ChunksOfParts(cut, parts)
  {
    assert ([a] + parts)[1..] == parts;
  }

  // ----- counting ---------------------------------------------------------

  predicate AllZero(chunk: Bytes) { forall i :: 0 <= i < |chunk| ==> chunk[i] == 0 }

  datatype Totals = Totals(seen: set<Bytes>, bytes: nat, duplicate: nat, zero: nat)

  const NOTHING := Totals({}, 0, 0, 0)

  /** What one chunk adds. */
  function Count(t: Totals, fingerprint: Bytes -> Bytes, chunk: Bytes): Totals {
    var t := t.(bytes := t.bytes + |chunk|);
    if AllZero(chunk) then t.(zero := t.zero + |chunk|)
    else if fingerprint(chunk) in t.seen then t.(duplicate := t.duplicate + |chunk|)
    else t.(seen := t.seen + {fingerprint(chunk)})
  }

  function CountAll(t: Totals, fingerprint: Bytes -> Bytes, chunks: seq<Bytes>): Totals
    decreases |chunks|
  {
    if chunks == [] then t else CountAll(Count(t, fingerprint, chunks[0]), fingerprint, chunks[1..])
  }

  lemma {:induction false} CountJoined(t: Totals, fingerprint: Bytes -> Bytes, a: seq<Bytes>, b: seq<Bytes>)
    ensures CountAll(t, fingerprint, a + b) == CountAll(CountAll(t, fingerprint, a), fingerprint, b)
    decreases |a|
  {
    if a == [] {
      assert a + b == b;
    } else {
      assert (a + b)[1..] == a[1..] + b;
      CountJoined(Count(t, fingerprint, a[0]), fingerprint, a[1..], b);
    }
  }

  /** The chunks of all files, in their order. */
  function ChunksOfFiles(cut: Cut, partMib: nat, bodies: seq<Bytes>): seq<Bytes>
    requires Tiles(cut)
  {
    if bodies == [] then [] else Chunks(cut, partMib, bodies[0]) + ChunksOfFiles(cut, partMib, bodies[1..])
  }

  /** An estimate in progress: how bodies are split and cut, and the counts. */
  class Run {
    const partMib: nat
    const cut: Cut
    const fingerprint: Bytes -> Bytes
    var seen: set<Bytes>
    var bytes: nat
    var duplicate: nat
    var zero: nat

    function Found(): Totals
      reads this
    {
      Totals(seen, bytes, duplicate, zero)
    }

    constructor (partMib: nat, cut: Cut, fingerprint: Bytes -> Bytes)
      ensures this.partMib == partMib && this.cut == cut && this.fingerprint == fingerprint
      ensures Found() == NOTHING
    {
      this.partMib, this.cut, this.fingerprint := partMib, cut, fingerprint;
      seen, bytes, duplicate, zero := {}, 0, 0, 0;
    }

    /** `Run::add` */
    method Add(body: Bytes)
      requires Tiles(cut)
      modifies this
      ensures Found() == CountAll(old(Found()), fingerprint, Chunks(cut, partMib, body))
    {
      var parts := Parts(partMib, body);
      assert parts[0..] == parts;
      for p := 0 to |parts|
        invariant CountAll(old(Found()), fingerprint, Chunks(cut, partMib, body)) ==
          CountAll(Found(), fingerprint, ChunksOfParts(cut, parts[p..]))
      {
        assert parts[p..][1..] == parts[p + 1..];
        CountJoined(Found(), fingerprint, ChunksOfPart(cut, parts[p]), ChunksOfParts(cut, parts[p + 1..]));
        AddPart(parts[p]);
      }
      assert parts[|parts|..] == [];
    }

    method AddPart(part: Bytes)
      requires Tiles(cut)
      modifies this
      ensures Found() == CountAll(old(Found()), fingerprint, ChunksOfPart(cut, part))
    {
      TilesAreInside(Pieces(cut, part), 0, |part|);
      AddPieces(part, Pieces(cut, part));
    }

    /** The inner loop of `Run::add`. */
    method AddPieces(part: Bytes, pieces: seq<Piece>)
      requires Inside(pieces, |part|)
      modifies this
      ensures Found() == CountAll(old(Found()), fingerprint, Slices(part, pieces))
    {
      ghost var chunks := Slices(part, pieces);
      assert chunks[0..] == chunks;
      for k := 0 to |pieces|
        invariant CountAll(old(Found()), fingerprint, chunks) == CountAll(Found(), fingerprint, chunks[k..])
      {
        var chunk := part[pieces[k].off..pieces[k].off + pieces[k].len];
        assert chunks[k..][0] == chunk && chunks[k..][1..] == chunks[k + 1..];
        AddChunk(chunk);
      }
      assert chunks[|pieces|..] == [];
    }

    /** One turn of it. */
    method AddChunk(chunk: Bytes)
      modifies this
      ensures Found() == Count(old(Found()), fingerprint, chunk)
    {
      bytes := bytes + |chunk|;
      if AllZero(chunk) {
        zero := zero + |chunk|;
        return;
      }
      if fingerprint(chunk) in seen {
        duplicate := duplicate + |chunk|;
      }
      seen := seen + {fingerprint(chunk)};
      assert fingerprint(chunk) in old(seen) ==> seen == old(seen);
    }

    /** The files, in the order given. */
    method AddFiles(bodies: seq<Bytes>)
      requires Tiles(cut)
      modifies this
      ensures Found() == CountAll(old(Found()), fingerprint, ChunksOfFiles(cut, partMib, bodies))
    {
      assert bodies[0..] == bodies;
      for i := 0 to |bodies|
        invariant CountAll(old(Found()), fingerprint, ChunksOfFiles(cut, partMib, bodies)) ==
          CountAll(Found(), fingerprint, ChunksOfFiles(cut, partMib, bodies[i..]))
      {
        assert bodies[i..][1..] == bodies[i + 1..];
        ghost var rest := ChunksOfFiles(cut, partMib, bodies[i + 1..]);
        CountJoined(Found(), fingerprint, Chunks(cut, partMib, bodies[i]), rest);
        Add(bodies[i]);
      }
      assert bodies[|bodies|..] == [];
    }
  }

  // ----- conservation -----------------------------------------------------

  /** The distinct chunks that are not all zero. */
  function NonZero(chunks: seq<Bytes>): set<Bytes> { set c | c in chunks && !AllZero(c) }

  function Zeros(chunks: seq<Bytes>): nat {
    if chunks == [] then 0 else (if AllZero(chunks[0]) then |chunks[0]| else 0) + Zeros(chunks[1..])
  }

  function Prints(fingerprint: Bytes -> Bytes, s: set<Bytes>): set<Bytes> { set c | c in s :: fingerprint(c) }

  ghost predicate Injective(fingerprint: Bytes -> Bytes, s: set<Bytes>) {
    forall a, b :: a in s && b in s && fingerprint(a) == fingerprint(b) ==> a == b
  }

  ghost function SetTotal(s: set<Bytes>): nat {
    if s == {} then 0 else
    var c :| c in s;
    |c| + SetTotal(s - {c})
  }

  lemma {:induction false} SetTotalWith(s: set<Bytes>, c: Bytes)
    requires c !in s
    ensures SetTotal(s + {c}) == SetTotal(s) + |c|
  {
    var t := s + {c};
    var d :| d in t && SetTotal(t) == |d| + SetTotal(t - {d});
    if d == c {
      assert t - {c} == s;
    } else {
      assert t - {d} == s - {d} + {c};
      SetTotalWith(s - {d}, c);
      assert s == s - {d} + {d};
      SetTotalWith(s - {d}, d);
    }
  }

  /** The bytes are the zero ones, the duplicate ones, and those of `kept`, one
      chunk for each fingerprint seen. */
  ghost predicate Accounts(t: Totals, fingerprint: Bytes -> Bytes, kept: set<Bytes>) {
    && t.seen == Prints(fingerprint, kept)
    && Injective(fingerprint, kept)
    && t.bytes == t.zero + t.duplicate + SetTotal(kept)
  }

  lemma CountAccounts(t: Totals, fingerprint: Bytes -> Bytes, chunk: Bytes, kept: set<Bytes>) returns (more: set<Bytes>)
    requires Accounts(t, fingerprint, kept)
    ensures Accounts(Count(t, fingerprint, chunk), fingerprint, more)
    ensures kept <= more <= kept + NonZero([chunk])
  {
    if AllZero(chunk) || fingerprint(chunk) in t.seen {
      more := kept;
    } else {
      assert fingerprint(chunk) in Prints(fingerprint, {chunk});
      SetTotalWith(kept, chunk);
      more := kept + {chunk};
    }
  }

  lemma {:induction false} CountAllAccounts(
    t: Totals, fingerprint: Bytes -> Bytes, chunks: seq<Bytes>, kept: set<Bytes>)
    returns (more: set<Bytes>)
    requires Accounts(t, fingerprint, kept)
    ensures Accounts(CountAll(t, fingerprint, chunks), fingerprint, more)
    ensures kept <= more <= kept + NonZero(chunks)
    decreases |chunks|
  {
    if chunks == [] {
      more := kept;
    } else {
      var first := CountAccounts(t, fingerprint, chunks[0], kept);
      more := CountAllAccounts(Count(t, fingerprint, chunks[0]), fingerprint, chunks[1..], first);
    }
  }

  /** A chunk is zero when every byte of it is. */
  lemma ZerosOfOne(n: nat, chunk: Bytes, i: nat)
    requires i < |chunk| && chunk[i] != 0
    ensures Zeros([seq(n, _ => 0)]) == n && Zeros([chunk]) == 0
    ensures NonZero([seq(n, _ => 0)]) == {} && NonZero([chunk]) == {chunk}
  {
  }

  lemma {:induction false} CountAllAdds(t: Totals, fingerprint: Bytes -> Bytes, chunks: seq<Bytes>)
    ensures CountAll(t, fingerprint, chunks).zero == t.zero + Zeros(chunks)
    ensures CountAll(t, fingerprint, chunks).bytes == t.bytes + |Concat(chunks)|
    decreases |chunks|
  {
    if chunks != [] { CountAllAdds(Count(t, fingerprint, chunks[0]), fingerprint, chunks[1..]); }
  }

  /** Every chunk that is not all zero is seen, and nothing seen is forgotten. */
  lemma {:induction false} CountAllSees(t: Totals, fingerprint: Bytes -> Bytes, chunks: seq<Bytes>, c: Bytes)
    ensures fingerprint(c) in t.seen || c in NonZero(chunks) ==> fingerprint(c) in CountAll(t, fingerprint, chunks).seen
    decreases |chunks|
  {
    if chunks != [] { CountAllSees(Count(t, fingerprint, chunks[0]), fingerprint, chunks[1..], c); }
  }

  lemma KeptIsAll(fingerprint: Bytes -> Bytes, kept: set<Bytes>, all: set<Bytes>)
    requires kept <= all && Injective(fingerprint, all)
    requires forall c :: c in all ==> fingerprint(c) in Prints(fingerprint, kept)
    ensures kept == all
  {
  }

  lemma CountKeeps(t: Totals, fingerprint: Bytes -> Bytes, chunks: seq<Bytes>) returns (kept: set<Bytes>)
    requires Accounts(t, fingerprint, {})
    ensures Accounts(CountAll(t, fingerprint, chunks), fingerprint, kept) && kept <= NonZero(chunks)
    ensures Injective(fingerprint, NonZero(chunks)) ==> kept == NonZero(chunks)
  {
    kept := CountAllAccounts(t, fingerprint, chunks, {});
    if Injective(fingerprint, NonZero(chunks)) {
      forall c | c in NonZero(chunks) ensures fingerprint(c) in Prints(fingerprint, kept) {
        CountAllSees(t, fingerprint, chunks, c);
      }
      KeptIsAll(fingerprint, kept, NonZero(chunks));
    }
  }

  /** Nothing is lost: after any chunks, what is neither zero nor duplicate is
      one chunk for each fingerprint seen; every distinct chunk, if no two of
      them share a fingerprint. */
  lemma Conservation(fingerprint: Bytes -> Bytes, chunks: seq<Bytes>) returns (kept: set<Bytes>)
    ensures Accounts(CountAll(NOTHING, fingerprint, chunks), fingerprint, kept) && kept <= NonZero(chunks)
    ensures Injective(fingerprint, NonZero(chunks)) ==> kept == NonZero(chunks)
  {
    NothingAccounts(fingerprint);
    kept := CountKeeps(NOTHING, fingerprint, chunks);
  }

  lemma NothingAccounts(fingerprint: Bytes -> Bytes)
    ensures Accounts(NOTHING, fingerprint, {})
  {
  }

  function Sizes(bodies: seq<Bytes>): nat {
    if bodies == [] then 0 else |bodies[0]| + Sizes(bodies[1..])
  }

  lemma {:induction false} FilesAreCut(cut: Cut, partMib: nat, bodies: seq<Bytes>)
    requires Tiles(cut)
    ensures |Concat(ChunksOfFiles(cut, partMib, bodies))| == Sizes(bodies)
  {
    if bodies != [] {
      FilesAreCut(cut, partMib, bodies[1..]);
      ChunksAreTheBody(cut, partMib, bodies[0]);
      ConcatJoined(Chunks(cut, partMib, bodies[0]), ChunksOfFiles(cut, partMib, bodies[1..]));
    }
  }

  /** With a fingerprint that tells the files' chunks apart, the files' sizes
      are the zero bytes, the duplicate ones and the distinct chunks'. */
  lemma EstimateIsExact(cut: Cut, partMib: nat, fingerprint: Bytes -> Bytes, bodies: seq<Bytes>)
    returns (t: Totals, chunks: seq<Bytes>)
    requires Tiles(cut) && Injective(fingerprint, NonZero(ChunksOfFiles(cut, partMib, bodies)))
    ensures chunks == ChunksOfFiles(cut, partMib, bodies) && t == CountAll(NOTHING, fingerprint, chunks)
    ensures t.bytes == Sizes(bodies) && t.zero == Zeros(chunks)
    ensures Sizes(bodies) == t.zero + t.duplicate + SetTotal(NonZero(chunks))
  {
    chunks := ChunksOfFiles(cut, partMib, bodies);
    FilesAreCut(cut, partMib, bodies);
    t := TotalsAre(fingerprint, chunks);
  }

  lemma TotalsAre(fingerprint: Bytes -> Bytes, chunks: seq<Bytes>) returns (t: Totals)
    requires Injective(fingerprint, NonZero(chunks))
    ensures t == CountAll(NOTHING, fingerprint, chunks)
    ensures t.bytes == |Concat(chunks)| == t.zero + t.duplicate + SetTotal(NonZero(chunks)) && t.zero == Zeros(chunks)
  {
    t := CountAll(NOTHING, fingerprint, chunks);
    var kept := Conservation(fingerprint, chunks);
    AccountsTotal(t, fingerprint, kept);
    CountAllAdds(NOTHING, fingerprint, chunks);
  }

  lemma AccountsTotal(t: Totals, fingerprint: Bytes -> Bytes, kept: set<Bytes>)
    requires Accounts(t, fingerprint, kept)
    ensures t.bytes == t.zero + t.duplicate + SetTotal(kept)
  {
  }

  // ----- the order of files -----------------------------------------------

  /** Chunks of one fingerprint are of one length. */
  ghost predicate SameLengths(fingerprint: Bytes -> Bytes, s: set<Bytes>) {
    forall a, b :: a in s && b in s && fingerprint(a) == fingerprint(b) ==> |a| == |b|
  }

  /** They are told apart, or count alike. */
  predicate Alike(fingerprint: Bytes -> Bytes, a: Bytes, b: Bytes) {
    !AllZero(a) && !AllZero(b) && fingerprint(a) == fingerprint(b) ==> |a| == |b|
  }

  lemma CountSwaps(t: Totals, fingerprint: Bytes -> Bytes, a: Bytes, b: Bytes)
    requires Alike(fingerprint, a, b)
    ensures Count(Count(t, fingerprint, a), fingerprint, b) == Count(Count(t, fingerprint, b), fingerprint, a)
  {
  }

  /** A chunk counted last may be counted first. */
  lemma {:induction false} CountLast(t: Totals, fingerprint: Bytes -> Bytes, a: seq<Bytes>, c: Bytes)
    requires forall x :: x in a ==> Alike(fingerprint, x, c)
    ensures CountAll(t, fingerprint, a + [c]) == CountAll(Count(t, fingerprint, c), fingerprint, a)
    decreases |a|
  {
    if a == [] {
      assert a + [c] == [c] && [c][1..] == [];
    } else {
      assert (a + [c])[1..] == a[1..] + [c];
      CountLast(Count(t, fingerprint, a[0]), fingerprint, a[1..], c);
      CountSwaps(t, fingerprint, a[0], c);
    }
  }

  lemma WithoutStep<T>(s: seq<T>, k: nat)
    requires k < |s|
    ensures k > 0 ==> Without(s, k) == [s[0]] + Without(s[1..], k - 1)
    ensures k == 0 ==> Without(s, k) == s[1..]
  {
  }

  lemma WithoutCounts<T>(s: seq<T>, k: nat)
    requires k < |s|
    ensures multiset(Without(s, k)) == multiset(s) - multiset{s[k]}
  {
    assert s == s[..k] + [s[k]] + s[k + 1..];
  }

  /** The first of `a`, found in `b`. */
  lemma FindFirst<T>(a: seq<T>, b: seq<T>) returns (k: nat)
    requires a != [] && multiset(a) == multiset(b)
    ensures k < |b| && b[k] == a[0] && multiset(a[1..]) == multiset(Without(b, k))
  {
    assert a[0] in multiset(b);
    k :| k < |b| && b[k] == a[0];
    WithoutCounts(a, 0);
    WithoutStep(a, 0);
    WithoutCounts(b, k);
  }

  /** Any chunk may be counted first. */
  lemma CountFirst(t: Totals, fingerprint: Bytes -> Bytes, chunks: seq<Bytes>, k: nat)
    requires k < |chunks| && forall x :: x in chunks ==> Alike(fingerprint, x, chunks[k])
    ensures CountAll(t, fingerprint, chunks) ==
      CountAll(Count(t, fingerprint, chunks[k]), fingerprint, Without(chunks, k))
  {
    var a, c, b := chunks[..k], chunks[k], chunks[k + 1..];
    assert chunks == a + [c] + b;
    CountJoined(t, fingerprint, a + [c], b);
    CountLast(t, fingerprint, a, c);
    CountJoined(Count(t, fingerprint, c), fingerprint, a, b);
  }

  lemma SameChunks(a: seq<Bytes>, b: seq<Bytes>)
    requires multiset(a) == multiset(b)
    ensures NonZero(a) == NonZero(b)
  {
    forall c ensures c in a <==> c in b {
      assert c in a <==> c in multiset(a);
      assert c in b <==> c in multiset(b);
    }
  }

  lemma {:induction false} CountAnyOrder(t: Totals, fingerprint: Bytes -> Bytes, a: seq<Bytes>, b: seq<Bytes>)
    requires multiset(a) == multiset(b) && SameLengths(fingerprint, NonZero(a))
    ensures CountAll(t, fingerprint, a) == CountAll(t, fingerprint, b)
    decreases |a|
  {
    assert |multiset(a)| == |a| && |multiset(b)| == |b|;
    if a != [] {
      var k := FindFirst(a, b);
      SameChunks(a, b);
      CountFirst(t, fingerprint, b, k);
      CountAnyOrder(Count(t, fingerprint, a[0]), fingerprint, a[1..], Without(b, k));
    }
  }

  function FlatMap<A, B>(f: A -> seq<B>, xs: seq<A>): seq<B> {
    if xs == [] then [] else f(xs[0]) + FlatMap(f, xs[1..])
  }

  lemma {:induction false} FlatMapWithout<A, B>(f: A -> seq<B>, xs: seq<A>, k: nat)
    requires k < |xs|
    ensures multiset(FlatMap(f, xs)) == multiset(f(xs[k])) + multiset(FlatMap(f, Without(xs, k)))
  {
    WithoutStep(xs, k);
    if k > 0 { FlatMapWithout(f, xs[1..], k - 1); }
  }

  lemma {:induction false} FlatMapSame<A, B>(f: A -> seq<B>, a: seq<A>, b: seq<A>)
    requires multiset(a) == multiset(b)
    ensures multiset(FlatMap(f, a)) == multiset(FlatMap(f, b))
  {
    assert |multiset(a)| == |a| && |multiset(b)| == |b|;
    if a != [] {
      var k := FindFirst(a, b);
      FlatMapWithout(f, b, k);
      FlatMapSame(f, a[1..], Without(b, k));
    }
  }

  lemma {:induction false} FilesAreFlat(cut: Cut, partMib: nat, f: Bytes -> seq<Bytes>, bodies: seq<Bytes>)
    requires Tiles(cut) && forall body :: f(body) == Chunks(cut, partMib, body)
    ensures ChunksOfFiles(cut, partMib, bodies) == FlatMap(f, bodies)
  {
    if bodies != [] { FilesAreFlat(cut, partMib, f, bodies[1..]); }
  }

  lemma ChunksOfSameFiles(cut: Cut, partMib: nat, a: seq<Bytes>, b: seq<Bytes>)
    requires Tiles(cut) && multiset(a) == multiset(b)
    ensures multiset(ChunksOfFiles(cut, partMib, a)) == multiset(ChunksOfFiles(cut, partMib, b))
  {
    ghost var f: Bytes -> seq<Bytes> := body => if Tiles(cut) then Chunks(cut, partMib, body) else [];
    FilesAreFlat(cut, partMib, f, a);
    FilesAreFlat(cut, partMib, f, b);
    FlatMapSame(f, a, b);
  }

  /** The same files in another order count the same, when chunks of one
      fingerprint are of one length. */
  lemma OrderDoesNotMatter(cut: Cut, partMib: nat, fingerprint: Bytes -> Bytes, a: seq<Bytes>, b: seq<Bytes>)
    requires Tiles(cut) && multiset(a) == multiset(b)
    requires SameLengths(fingerprint, NonZero(ChunksOfFiles(cut, partMib, a)))
    ensures CountAll(NOTHING, fingerprint, ChunksOfFiles(cut, partMib, a)) ==
      CountAll(NOTHING, fingerprint, ChunksOfFiles(cut, partMib, b))
  {
    ChunksOfSameFiles(cut, partMib, a, b);
    CountAnyOrder(NOTHING, fingerprint, ChunksOfFiles(cut, partMib, a), ChunksOfFiles(cut, partMib, b));
  }

  lemma CountTwo(t: Totals, fingerprint: Bytes -> Bytes, a: Bytes, b: Bytes)
    ensures CountAll(t, fingerprint, [a, b]) == Count(Count(t, fingerprint, a), fingerprint, b)
  {
    assert [a, b][1..] == [b] && [b][1..] == [];
    assert CountAll(Count(t, fingerprint, a), fingerprint, [b]) == Count(Count(t, fingerprint, a), fingerprint, b);
  }

  /** What was duplicate before stays so, and changes nothing else. */
  lemma {:induction false} CountShifts(t: Totals, d: nat, fingerprint: Bytes -> Bytes, chunks: seq<Bytes>)
    ensures CountAll(t.(duplicate := t.duplicate + d), fingerprint, chunks).duplicate ==
      CountAll(t, fingerprint, chunks).duplicate + d
    decreases |chunks|
  {
    if chunks != [] {
      CountShifts(Count(t, fingerprint, chunks[0]), d, fingerprint, chunks[1..]);
    }
  }

  lemma CountPair(fingerprint: Bytes -> Bytes, x: Bytes, y: Bytes)
    requires !AllZero(x) && !AllZero(y) && fingerprint(x) == fingerprint(y)
    ensures CountAll(NOTHING, fingerprint, [x, y]) == Totals({fingerprint(x)}, |x| + |y|, |y|, 0)
  {
    CountTwo(NOTHING, fingerprint, x, y);
    assert Count(NOTHING, fingerprint, x) == Totals({fingerprint(x)}, |x|, 0, 0);
  }

  /** Two chunks of one fingerprint in front: the second one's length shows. */
  lemma FrontMatters(fingerprint: Bytes -> Bytes, x: Bytes, y: Bytes, rest: seq<Bytes>)
    requires !AllZero(x) && !AllZero(y) && fingerprint(x) == fingerprint(y)
    ensures CountAll(NOTHING, fingerprint, [x, y] + rest).duplicate - |y| ==
      CountAll(NOTHING, fingerprint, [y, x] + rest).duplicate - |x|
  {
    var t := Totals({fingerprint(x)}, |x| + |y|, 0, 0);
    CountPair(fingerprint, x, y);
    CountPair(fingerprint, y, x);
    CountJoined(NOTHING, fingerprint, [x, y], rest);
    CountJoined(NOTHING, fingerprint, [y, x], rest);
    CountShifts(t, |y|, fingerprint, rest);
    CountShifts(t, |x|, fingerprint, rest);
  }

  lemma PutFirst<T>(s: seq<T>, x: T) returns (rest: seq<T>)
    requires x in s
    ensures multiset(s) == multiset{x} + multiset(rest)
  {
    var i :| 0 <= i < |s| && s[i] == x;
    WithoutCounts(s, i);
    rest := Without(s, i);
    assert x in multiset(s);
  }

  lemma PairCounts<T>(x: T, y: T, rest: seq<T>)
    ensures multiset([x, y] + rest) == multiset{x} + multiset{y} + multiset(rest)
  {
    assert multiset([x, y]) == multiset{x} + multiset{y};
  }

  /** Two different elements, brought to the front. */
  lemma BringToFront<T>(s: seq<T>, x: T, y: T) returns (rest: seq<T>)
    requires x in s && y in s && x != y
    ensures multiset([x, y] + rest) == multiset([y, x] + rest) == multiset(s)
  {
    var t := PutFirst(s, x);
    assert y in multiset(s);
    assert y in multiset(t);
    rest := PutFirst(t, y);
    PairCounts(x, y, rest);
    PairCounts(y, x, rest);
  }

  /** Every order of these chunks gives the same totals. */
  ghost predicate AnyOrderCounts(fingerprint: Bytes -> Bytes, a: seq<Bytes>) {
    forall b: seq<Bytes> :: multiset(b) == multiset(a) ==>
      CountAll(NOTHING, fingerprint, b) == CountAll(NOTHING, fingerprint, a)
  }

  /** The order of given chunks does not matter exactly when those of them that
      share a fingerprint, zeros aside, are of one length. */
  lemma AnyOrderExactlyWhen(fingerprint: Bytes -> Bytes, a: seq<Bytes>)
    ensures AnyOrderCounts(fingerprint, a) <==> SameLengths(fingerprint, NonZero(a))
  {
    if SameLengths(fingerprint, NonZero(a)) {
      forall b: seq<Bytes> | multiset(b) == multiset(a)
        ensures CountAll(NOTHING, fingerprint, b) == CountAll(NOTHING, fingerprint, a)
      {
        CountAnyOrder(NOTHING, fingerprint, a, b);
      }
    }
    if AnyOrderCounts(fingerprint, a) {
      forall x, y | x in NonZero(a) && y in NonZero(a) && fingerprint(x) == fingerprint(y) ensures |x| == |y| {
        if x != y {
          var rest := BringToFront(a, x, y);
          FrontMatters(fingerprint, x, y, rest);
        }
      }
    }
  }

  lemma InjectiveIsEnough(fingerprint: Bytes -> Bytes, s: set<Bytes>)
    requires Injective(fingerprint, s)
    ensures SameLengths(fingerprint, s)
  {
  }

  /** So with a fingerprint that tells the files' chunks apart, the totals do not
      depend on the order of the files. */
  lemma FileOrderDoesNotMatter(cut: Cut, partMib: nat, fingerprint: Bytes -> Bytes, a: seq<Bytes>, b: seq<Bytes>)
    requires Tiles(cut) && multiset(a) == multiset(b)
    requires Injective(fingerprint, NonZero(ChunksOfFiles(cut, partMib, a)))
    ensures CountAll(NOTHING, fingerprint, ChunksOfFiles(cut, partMib, a)) ==
      CountAll(NOTHING, fingerprint, ChunksOfFiles(cut, partMib, b))
  {
    InjectiveIsEnough(fingerprint, NonZero(ChunksOfFiles(cut, partMib, a)));
    OrderDoesNotMatter(cut, partMib, fingerprint, a, b);
  }
}
