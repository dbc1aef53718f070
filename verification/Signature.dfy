/**
 The C3 tensor signature: a salted pairwise XOR fold of the tensor's 64-bit words down to at
 most 512 blocks, then an XOR-multiply chain over the blocks and the tensor's metadata.
 */
module Signature {
  import opened Words
  import CyclicSums

  const OFFSET_BASIS: nat := 14695981039346656037
  const PRIME: nat := 1099511628211
  const NUM_CHUNKS: nat := 512

  type Word = nat

  ghost predicate AllWords(s: seq<Word>) { forall i :: 0 <= i < |s| ==> IsWord(s[i]) }

  // ---------- the fold ----------

  function Salt(level: nat): nat { (PRIME * (level + 1)) % Modulus() }

  // Half of a width rounded up to even.
  function Half(width: nat): (h: nat)
    ensures width <= 2 * h <= width + 1
    ensures width > 1 ==> 1 <= h < width
  {
    (width + width % 2) / 2
  }

  function Padded(row: seq<Word>, width: nat): (p: seq<Word>)
    requires |row| <= width
    ensures |p| == width
    ensures forall i :: 0 <= i < width ==> p[i] == if i < |row| then row[i] else 0
  {
    row + seq(width - |row|, _ => 0)
  }

  function Mix(left: Word, right: Word, level: nat): (z: Word)
    ensures IsWord(z)
  {
    Xor(left, (right * Salt(level)) % Modulus(), BITS)
  }

  // How a level combines an element of the left half with its partner on the right.
  type Mixer = (Word, Word, nat) -> Word

  /** One level: the right half is folded onto the left half. */
  function FoldLevel(mix: Mixer, row: seq<Word>, level: nat): (r: seq<Word>)
    requires |row| > 1
    ensures |r| == Half(|row|)
  {
    var p := Padded(row, 2 * Half(|row|));
    var half := Half(|row|);
    seq(half, i requires 0 <= i < half => mix(p[i], p[half + i], level))
  }

  function FoldRow(mix: Mixer, row: seq<Word>, level: nat): (r: seq<Word>)
    ensures |r| == if |row| <= 1 then |row| else 1
    decreases |row|
  {
    if |row| <= 1 then row else FoldRow(mix, FoldLevel(mix, row, level), level + 1)
  }

  function FoldWidth(n: nat): nat { (n + NUM_CHUNKS - 1) / NUM_CHUNKS }

  function Row(flat: seq<Word>, r: nat): (row: seq<Word>)
    requires r < NUM_CHUNKS && |flat| > 0
    ensures |row| == FoldWidth(|flat|) >= 1
  {
    var w := FoldWidth(|flat|);
    seq(w, c requires 0 <= c < w => if r * w + c < |flat| then flat[r * w + c] else 0)
  }

  function Blocks(flat: seq<Word>): (b: seq<Word>)
    ensures |b| == if |flat| <= NUM_CHUNKS then |flat| else NUM_CHUNKS
  {
    if |flat| <= NUM_CHUNKS then flat
    else seq(NUM_CHUNKS, r requires 0 <= r < NUM_CHUNKS => FoldRow(Mix, Row(flat, r), 0)[0])
  }

  // ---------- the chain ----------

  function ChainStep(h: nat, value: int): (z: nat)
    ensures IsWord(z)
  {
    (Xor(h, value % Modulus(), BITS) * PRIME) % Modulus()
  }

  function Chain(h: nat, values: seq<int>): nat
    decreases |values|
  {
    if values == [] then h else Chain(ChainStep(h, values[0]), values[1..])
  }

  function Signed(h: nat): int { if h >= Pow2(BITS - 1) then h - Modulus() else h }

  function Finalize(values: seq<int>, payload: nat): int {
    Signed(ChainStep(Chain(OFFSET_BASIS, values), payload))
  }

  /** Words of the tensor, its byte size, its shape (with rank first) and its dtype value. */
  function TensorSignature(words: seq<Word>, payload: nat, shape: seq<int>, dtype: int): int {
    Finalize([Finalize(Blocks(words), payload)] + shape + [dtype], payload)
  }

  // ---------- the loops of the source ----------

  method XorFoldToBlocks(flat: seq<Word>) returns (blocks: seq<Word>)
    ensures blocks == Blocks(flat)
  {
    if |flat| <= NUM_CHUNKS {
      return flat;
    }
    var width := FoldWidth(|flat|);
    var data := seq(NUM_CHUNKS, r requires 0 <= r < NUM_CHUNKS => Row(flat, r));
    var level := 0;
    while width > 1
      invariant width >= 1 && |data| == NUM_CHUNKS
      invariant forall r :: 0 <= r < NUM_CHUNKS ==> |data[r]| == width
      invariant forall r :: 0 <= r < NUM_CHUNKS ==> FoldRow(Mix, data[r], level) == FoldRow(Mix, Row(flat, r), 0)
      decreases width
    {
      data := seq(NUM_CHUNKS, r requires 0 <= r < NUM_CHUNKS && |data[r]| > 1 => FoldLevel(Mix, data[r], level));
      width := Half(width);
      level := level + 1;
    }
    blocks := seq(NUM_CHUNKS, r requires 0 <= r < NUM_CHUNKS && |data[r]| == 1 => data[r][0]);
  }

  method FinalizeSignature(values: seq<int>, payload: nat) returns (signature: int)
    ensures signature == Finalize(values, payload)
  {
    var h: nat := OFFSET_BASIS;
    for i := 0 to |values|
      invariant Chain(OFFSET_BASIS, values) == Chain(h, values[i..])
    {
      h := Xor(h, values[i] % Modulus(), BITS);
      h := (h * PRIME) % Modulus();
    }
    h := Xor(h, payload % Modulus(), BITS);
    h := (h * PRIME) % Modulus();
    signature := if h > Pow2(BITS - 1) - 1 then h - Modulus() else h;
  }

  // ---------- the chain hides nothing ----------

  /** Multiplying by the prime is injective on words. */
  lemma {:induction false} PrimeInjective(x: nat, y: nat)
    requires IsWord(x) && IsWord(y) && (x * PRIME) % Modulus() == (y * PRIME) % Modulus()
    ensures x == y
  {
    ReduceBoth(x * PRIME, y * PRIME, BITS);
    ZeroDivides(BITS);
    assert x * PRIME - y * PRIME == (x - y) * PRIME;
    OddCancel(x - y, PRIME, BITS);
    SmallMultipleIsZero(x - y, BITS);
  }

  lemma {:induction false} XorInjective(x: nat, y: nat, z: nat)
    requires IsWord(x) && IsWord(y)
    requires Xor(x, z, BITS) == Xor(y, z, BITS) || Xor(z, x, BITS) == Xor(z, y, BITS)
    ensures x == y
  {
    XorCommutes(x, z, BITS);
    XorCommutes(y, z, BITS);
    XorKeeps(x, y, z, BITS, BITS);
    ZeroDivides(BITS);
    SmallMultipleIsZero(x - y, BITS);
  }

  lemma {:induction false} ChainStepInjective(h: nat, h': nat, value: int, value': int)
    requires IsWord(h) && IsWord(h') && ChainStep(h, value) == ChainStep(h', value')
    ensures value == value' ==> h == h'
    ensures h == h' ==> value % Modulus() == value' % Modulus()
  {
    PrimeInjective(Xor(h, value % Modulus(), BITS), Xor(h', value' % Modulus(), BITS));
    if value == value' {
      XorInjective(h, h', value % Modulus());
    }
    if h == h' {
      XorInjective(value % Modulus(), value' % Modulus(), h);
    }
  }

  lemma {:induction false} ChainStateInjective(h: nat, h': nat, values: seq<int>)
    requires IsWord(h) && IsWord(h') && Chain(h, values) == Chain(h', values)
    ensures h == h'
    decreases |values|
  {
    if values == [] {
    } else {
      ChainStateInjective(ChainStep(h, values[0]), ChainStep(h', values[0]), values[1..]);
      ChainStepInjective(h, h', values[0], values[0]);
    }
  }

  // The two value lists differ at most at one place.
  ghost predicate DifferOnlyAt<T(!new)>(a: seq<T>, b: seq<T>, i: nat) {
    |a| == |b| && i < |a| && forall j :: 0 <= j < |a| && j != i ==> a[j] == b[j]
  }

  lemma {:induction false} ChainDetects(h: nat, a: seq<int>, b: seq<int>, i: nat)
    requires IsWord(h) && DifferOnlyAt(a, b, i)
    ensures Chain(h, a) == Chain(h, b) <==> a[i] % Modulus() == b[i] % Modulus()
    decreases |a|
  {
    if i > 0 {
      assert a[0] == b[0];
      ChainDetects(ChainStep(h, a[0]), a[1..], b[1..], i - 1);
    } else {
      assert a[1..] == b[1..];
      if Chain(h, a) == Chain(h, b) {
        ChainStateInjective(ChainStep(h, a[0]), ChainStep(h, b[0]), a[1..]);
        ChainStepInjective(h, h, a[0], b[0]);
      }
    }
  }

  lemma {:induction false} PowPlusFour(n: nat)
    ensures Pow2(n + 4) == 16 * Pow2(n)
  {
    assert Pow2(n + 1) == 2 * Pow2(n);
    assert Pow2(n + 2) == 2 * Pow2(n + 1);
    assert Pow2(n + 3) == 2 * Pow2(n + 2);
    assert Pow2(n + 4) == 2 * Pow2(n + 3);
  }

  lemma {:induction false} PowPlusSixteen(n: nat)
    ensures Pow2(n + 16) == 65536 * Pow2(n)
  {
    PowPlusFour(n);
    PowPlusFour(n + 4);
    PowPlusFour(n + 8);
    PowPlusFour(n + 12);
  }

  lemma {:induction false} PowPlusSixtyFour(n: nat)
    ensures Pow2(n + 64) == 18446744073709551616 * Pow2(n)
  {
    PowPlusSixteen(n);
    PowPlusSixteen(n + 16);
    PowPlusSixteen(n + 32);
    PowPlusSixteen(n + 48);
  }

  lemma {:induction false} BasisIsWord()
    ensures IsWord(OFFSET_BASIS)
  {
    PowPlusSixtyFour(0);
  }

  lemma {:induction false} ShiftedRemainder(h: int, m: int)
    requires 0 <= h < m
    ensures (h - m) % m == h
  {
  }

  lemma {:induction false} SignedInjective(h: nat, h': nat)
    requires IsWord(h) && IsWord(h')
    ensures Signed(h) == Signed(h') ==> h == h'
  {
  }

  lemma {:induction false} SignedReduces(h: nat)
    requires IsWord(h)
    ensures Signed(h) % Modulus() == h
  {
    var m := Modulus();
    if h >= Pow2(BITS - 1) {
      ShiftedRemainder(h, m);
    } else {
      CyclicSums.ModSmall(h, m);
    }
  }

  /** The finalized signature changes exactly when the one changed value changes as a word. */
  lemma {:induction false} FinalizeDetects(a: seq<int>, b: seq<int>, i: nat, payload: nat)
    requires DifferOnlyAt(a, b, i)
    ensures Finalize(a, payload) == Finalize(b, payload) <==> a[i] % Modulus() == b[i] % Modulus()
  {
    BasisIsWord();
    ChainDetects(OFFSET_BASIS, a, b, i);
    var ha, hb := Chain(OFFSET_BASIS, a), Chain(OFFSET_BASIS, b);
    ChainIsWord(OFFSET_BASIS, a);
    ChainIsWord(OFFSET_BASIS, b);
    SignedInjective(ChainStep(ha, payload), ChainStep(hb, payload));
    if ChainStep(ha, payload) == ChainStep(hb, payload) {
      ChainStepInjective(ha, hb, payload, payload);
    }
  }

  lemma {:induction false} ChainIsWord(h: nat, values: seq<int>)
    requires IsWord(h)
    ensures IsWord(Chain(h, values))
    decreases |values|
  {
    if values == [] {
    } else {
      ChainIsWord(ChainStep(h, values[0]), values[1..]);
    }
  }

  // ---------- the fold loses low bits ----------

  /** Bits lost by the word in column `column`: salts of the levels at which it sits on the right. */
  function Loss(width: nat, column: nat, level: nat): nat
    requires column < width
    decreases width
  {
    if width <= 1 then 0
    else
      var half := Half(width);
      if column < half then Loss(half, column, level + 1)
      else Low(level + 1) + Loss(half, column - half, level + 1)
  }

  lemma {:induction false} MixLeftDiff(x: Word, y: Word, z: Word, k: nat, level: nat)
    requires DiffAt(x, y, k)
    ensures DiffAt(Mix(x, z, level), Mix(y, z, level), k)
  {
    var w: nat := (z * Salt(level)) % Modulus();
    XorDiff(x, y, w, k);
  }

  lemma {:induction false} SaltDiff(x: Word, y: Word, k: nat, level: nat)
    requires DiffAt(x, y, k)
    ensures DiffAt((x * Salt(level)) % Modulus(), (y * Salt(level)) % Modulus(), k + Low(level + 1))
  {
    FactorDiff(x, y, PRIME, level + 1, k);
  }

  lemma {:induction false} SaltedXorDiff(x: Word, y: Word, z: Word, k: nat, level: nat)
    requires DiffAt((x * Salt(level)) % Modulus(), (y * Salt(level)) % Modulus(), k)
    ensures DiffAt(Mix(z, x, level), Mix(z, y, level), k)
  {
    XorDiff((x * Salt(level)) % Modulus(), (y * Salt(level)) % Modulus(), z, k);
  }

  lemma {:induction false} MixRightDiff(x: Word, y: Word, z: Word, k: nat, level: nat)
    requires DiffAt(x, y, k)
    ensures DiffAt(Mix(z, x, level), Mix(z, y, level), k + Low(level + 1))
  {
    SaltDiff(x, y, k, level);
    SaltedXorDiff(x, y, z, k + Low(level + 1), level);
  }

  // Where column c lands when a row of the given width is halved.
  function Folded(width: nat, c: nat): nat
    requires c < width
  {
    var half := Half(width);
    if c < half then c else c - half
  }

  // The bit of a difference in column c after the level: salted on the right.
  function Shifted(width: nat, c: nat, k: nat, level: nat): nat
    requires c < width
  {
    if c < Half(width) then k else k + Low(level + 1)
  }

  // Relation rel(x, y, k) survives a level: unchanged on the left, shifted by the salt on the right.
  ghost predicate Tracks(mix: Mixer, rel: (Word, Word, nat) -> bool) {
    && (forall x: Word, y: Word, z: Word, k: nat, level: nat {:trigger rel(mix(x, z, level), mix(y, z, level), k)} ::
          rel(x, y, k) ==> rel(mix(x, z, level), mix(y, z, level), k))
    && (forall x: Word, y: Word, z: Word, k: nat,
        level: nat {:trigger rel(mix(z, x, level), mix(z, y, level), k + Low(level + 1))} ::
          rel(x, y, k) ==> rel(mix(z, x, level), mix(z, y, level), k + Low(level + 1)))
  }

  lemma {:induction false} LevelDiff(mix: Mixer, rel: (Word, Word, nat) -> bool, a: seq<Word>, b: seq<Word>, c: nat,
                                     k: nat, level: nat)
    requires Tracks(mix, rel) && DifferOnlyAt(a, b, c) && |a| > 1 && rel(a[c], b[c], k)
    ensures var a', b', c' := FoldLevel(mix, a, level), FoldLevel(mix, b, level), Folded(|a|, c);
            && DifferOnlyAt(a', b', c')
            && rel(a'[c'], b'[c'], Shifted(|a|, c, k, level))
  {
  }

  // The two rows fold, from this level on, to values related at bit k.
  predicate FoldsTo(mix: Mixer, rel: (Word, Word, nat) -> bool, a: seq<Word>, b: seq<Word>, level: nat, k: nat)
    requires |a| > 0 && |b| > 0
  {
    rel(FoldRow(mix, a, level)[0], FoldRow(mix, b, level)[0], k)
  }

  lemma {:induction false} FoldStep(mix: Mixer, rel: (Word, Word, nat) -> bool,
                                    a: seq<Word>, b: seq<Word>, c: nat, k: nat, level: nat)
    requires |a| == |b| > 1 && c < |a|
    requires FoldsTo(mix, rel, FoldLevel(mix, a, level), FoldLevel(mix, b, level), level + 1,
                     Shifted(|a|, c, k, level) + Loss(Half(|a|), Folded(|a|, c), level + 1))
    ensures FoldsTo(mix, rel, a, b, level, k + Loss(|a|, c, level))
  {
  }

  lemma {:induction false} FoldBase(mix: Mixer, rel: (Word, Word, nat) -> bool,
                                    a: seq<Word>, b: seq<Word>, k: nat, level: nat)
    requires |a| == |b| == 1 && rel(a[0], b[0], k)
    ensures FoldsTo(mix, rel, a, b, level, k + Loss(1, 0, level))
  {
  }

  lemma {:induction false} FoldDiff(mix: Mixer, rel: (Word, Word, nat) -> bool,
                                    a: seq<Word>, b: seq<Word>, c: nat, k: nat, level: nat)
    requires Tracks(mix, rel) && DifferOnlyAt(a, b, c) && rel(a[c], b[c], k)
    ensures FoldsTo(mix, rel, a, b, level, k + Loss(|a|, c, level))
    decreases |a|
  {
    if |a| == 1 {
      FoldBase(mix, rel, a, b, k, level);
    } else {
      LevelDiff(mix, rel, a, b, c, k, level);
      FoldDiff(mix, rel, FoldLevel(mix, a, level), FoldLevel(mix, b, level), Folded(|a|, c),
               Shifted(|a|, c, k, level), level + 1);
      FoldStep(mix, rel, a, b, c, k, level);
    }
  }

  lemma {:induction false} MixTracks()
    ensures Tracks(Mix, (x: Word, y: Word, k: nat) => DiffAt(x, y, k))
  {
    forall x: Word, y: Word, z: Word, k: nat, level: nat | DiffAt(x, y, k)
      ensures DiffAt(Mix(x, z, level), Mix(y, z, level), k)
    {
      MixLeftDiff(x, y, z, k, level);
    }
    forall x: Word, y: Word, z: Word, k: nat, level: nat | DiffAt(x, y, k)
      ensures DiffAt(Mix(z, x, level), Mix(z, y, level), k + Low(level + 1))
    {
      MixRightDiff(x, y, z, k, level);
    }
  }

  lemma {:induction false} FoldIsWord(row: seq<Word>, level: nat)
    requires |row| >= 1 && AllWords(row)
    ensures IsWord(FoldRow(Mix, row, level)[0])
    decreases |row|
  {
    if |row| <= 1 {
    } else {
      var next := FoldLevel(Mix, row, level);
      assert AllWords(next);
      FoldIsWord(next, level + 1);
    }
  }

  /** Bits lost by word i of an n-word tensor. */
  function WordLoss(n: nat, i: nat): nat
    requires i < n
  {
    if n <= NUM_CHUNKS then 0 else Loss(FoldWidth(n), i % FoldWidth(n), 0)
  }

  lemma {:induction false} RowOfWord(n: nat, i: nat) returns (r: nat, c: nat)
    requires i < n && n > NUM_CHUNKS
    ensures r < NUM_CHUNKS && c < FoldWidth(n) && i == r * FoldWidth(n) + c && c == i % FoldWidth(n)
  {
    var w := FoldWidth(n);
    assert NUM_CHUNKS * w >= n;
    r, c := i / w, i % w;
  }

  lemma {:induction false} AtLeastOnce(d: int, w: int)
    requires d >= 1 && w >= 0
    ensures d * w >= w
  {
  }

  lemma {:induction false} OtherRow(w: nat, r: nat, r': nat, c: nat, c': nat)
    requires c < w && c' < w && r * w + c == r' * w + c'
    ensures r == r' && c == c'
  {
    assert (r - r') * w == c' - c;
    assert (r' - r) * w == c - c';
    if r < r' {
      AtLeastOnce(r' - r, w);
    } else if r' < r {
      AtLeastOnce(r - r', w);
    }
  }

  lemma {:induction false} RowEntry(flat: seq<Word>, r: nat, c: nat)
    requires |flat| > 0 && r < NUM_CHUNKS && c < FoldWidth(|flat|)
    ensures var at := r * FoldWidth(|flat|) + c;
            at >= 0 && Row(flat, r)[c] == if at < |flat| then flat[at] else 0
  {
    ProductOfNats(r, FoldWidth(|flat|));
  }

  lemma {:induction false} ProductOfNats(a: nat, b: nat)
    ensures a * b >= 0
  {
  }

  lemma {:induction false} RowsAgree(a: seq<Word>, b: seq<Word>, i: nat, r0: nat, c0: nat, r: nat, c: nat)
    requires DifferOnlyAt(a, b, i) && r < NUM_CHUNKS && r0 < NUM_CHUNKS && i == r0 * FoldWidth(|a|) + c0
    requires c < FoldWidth(|a|) && c0 < FoldWidth(|a|) && !(r == r0 && c == c0)
    ensures Row(a, r)[c] == Row(b, r)[c]
  {
    var w := FoldWidth(|a|);
    var at := r * w + c;
    RowEntry(a, r, c);
    RowEntry(b, r, c);
    if at == i {
      OtherRow(w, r, r0, c, c0);
    }
  }

  lemma {:induction false} RowsDiffer(a: seq<Word>, b: seq<Word>, i: nat, r0: nat, c0: nat)
    requires DifferOnlyAt(a, b, i) && r0 < NUM_CHUNKS && c0 < FoldWidth(|a|) && i == r0 * FoldWidth(|a|) + c0
    ensures DifferOnlyAt(Row(a, r0), Row(b, r0), c0)
    ensures Row(a, r0)[c0] == a[i] && Row(b, r0)[c0] == b[i]
    ensures forall r :: 0 <= r < NUM_CHUNKS && r != r0 ==> Row(a, r) == Row(b, r)
  {
    RowEntry(a, r0, c0);
    RowEntry(b, r0, c0);
    forall c | 0 <= c < FoldWidth(|a|) && c != c0
      ensures Row(a, r0)[c] == Row(b, r0)[c]
    {
      RowsAgree(a, b, i, r0, c0, r0, c);
    }
    forall r | 0 <= r < NUM_CHUNKS && r != r0
      ensures Row(a, r) == Row(b, r)
    {
      forall c | 0 <= c < FoldWidth(|a|)
        ensures Row(a, r)[c] == Row(b, r)[c]
      {
        RowsAgree(a, b, i, r0, c0, r, c);
      }
    }
  }

  // The block lists differ at one block, in words whose lowest differing bit is k.
  ghost predicate BlocksDiff(a: seq<Word>, b: seq<Word>, at: nat, k: nat) {
    DifferOnlyAt(a, b, at) && IsWord(a[at]) && IsWord(b[at]) && DiffAt(a[at], b[at], k)
  }

  lemma {:induction false} RowFoldDiff(a: seq<Word>, b: seq<Word>, c: nat, k: nat)
    requires DifferOnlyAt(a, b, c) && DiffAt(a[c], b[c], k)
    ensures DiffAt(FoldRow(Mix, a, 0)[0], FoldRow(Mix, b, 0)[0], k + Loss(|a|, c, 0))
  {
    MixTracks();
    FoldDiff(Mix, (x: Word, y: Word, n: nat) => DiffAt(x, y, n), a, b, c, k, 0);
  }

  lemma {:induction false} EntryIsWord(flat: seq<Word>, at: int, x: Word)
    requires AllWords(flat) && at >= 0 && x == if at < |flat| then flat[at] else 0
    ensures IsWord(x)
  {
  }

  lemma {:induction false} RowEntryIsWord(flat: seq<Word>, r: nat, c: nat)
    requires AllWords(flat) && |flat| > 0 && r < NUM_CHUNKS && c < FoldWidth(|flat|)
    ensures IsWord(Row(flat, r)[c])
  {
    RowEntry(flat, r, c);
    EntryIsWord(flat, r * FoldWidth(|flat|) + c, Row(flat, r)[c]);
  }

  lemma {:induction false} RowIsWords(flat: seq<Word>, r: nat)
    requires |flat| > 0 && AllWords(flat) && r < NUM_CHUNKS
    ensures AllWords(Row(flat, r))
  {
    forall c | 0 <= c < FoldWidth(|flat|)
      ensures IsWord(Row(flat, r)[c])
    {
      RowEntryIsWord(flat, r, c);
    }
  }

  lemma {:induction false} BlockIsFold(flat: seq<Word>, r: nat)
    requires |flat| > NUM_CHUNKS && r < NUM_CHUNKS
    ensures Blocks(flat)[r] == FoldRow(Mix, Row(flat, r), 0)[0]
  {
  }

  lemma {:induction false} BlockIsWord(flat: seq<Word>, r: nat)
    requires |flat| > NUM_CHUNKS && AllWords(flat) && r < NUM_CHUNKS
    ensures Blocks(flat)[r] == FoldRow(Mix, Row(flat, r), 0)[0] && IsWord(Blocks(flat)[r])
  {
    RowIsWords(flat, r);
    FoldIsWord(Row(flat, r), 0);
    BlockIsFold(flat, r);
  }

  lemma {:induction false} BlockDiffers(a: seq<Word>, b: seq<Word>, i: nat, r: nat, c: nat, k: nat)
    requires DifferOnlyAt(a, b, i) && |a| > NUM_CHUNKS && DiffAt(a[i], b[i], k)
    requires r < NUM_CHUNKS && c < FoldWidth(|a|) && i == r * FoldWidth(|a|) + c
    ensures DiffAt(Blocks(a)[r], Blocks(b)[r], k + Loss(FoldWidth(|a|), c, 0))
  {
    RowsDiffer(a, b, i, r, c);
    RowFoldDiff(Row(a, r), Row(b, r), c, k);
    BlockIsFold(a, r);
    BlockIsFold(b, r);
  }

  lemma {:induction false} OtherBlocksSame(a: seq<Word>, b: seq<Word>, i: nat, r: nat, c: nat)
    requires DifferOnlyAt(a, b, i) && |a| > NUM_CHUNKS
    requires r < NUM_CHUNKS && c < FoldWidth(|a|) && i == r * FoldWidth(|a|) + c
    ensures DifferOnlyAt(Blocks(a), Blocks(b), r)
  {
    RowsDiffer(a, b, i, r, c);
    OtherBlocksAgree(a, b, r);
  }

  lemma {:induction false} FoldedBlocksDiffer(a: seq<Word>, b: seq<Word>, i: nat, r: nat, c: nat, k: nat)
    requires DifferOnlyAt(a, b, i) && |a| > NUM_CHUNKS && AllWords(a) && AllWords(b) && DiffAt(a[i], b[i], k)
    requires r < NUM_CHUNKS && c < FoldWidth(|a|) && i == r * FoldWidth(|a|) + c
    ensures BlocksDiff(Blocks(a), Blocks(b), r, k + Loss(FoldWidth(|a|), c, 0))
  {
    BlockDiffers(a, b, i, r, c, k);
    OtherBlocksSame(a, b, i, r, c);
    BlockIsWord(a, r);
    BlockIsWord(b, r);
  }

  lemma {:induction false} OtherBlocksAgree(a: seq<Word>, b: seq<Word>, r0: nat)
    requires |a| == |b| > NUM_CHUNKS
    requires forall r :: 0 <= r < NUM_CHUNKS && r != r0 ==> Row(a, r) == Row(b, r)
    ensures forall r :: 0 <= r < NUM_CHUNKS && r != r0 ==> Blocks(a)[r] == Blocks(b)[r]
  {
    forall r | 0 <= r < NUM_CHUNKS && r != r0
      ensures Blocks(a)[r] == Blocks(b)[r]
    {
      BlockIsFold(a, r);
      BlockIsFold(b, r);
    }
  }

  lemma {:induction false} LargeBlocksDiffer(a: seq<Word>, b: seq<Word>, i: nat, k: nat) returns (r: nat)
    requires DifferOnlyAt(a, b, i) && DiffAt(a[i], b[i], k) && |a| > NUM_CHUNKS
    requires AllWords(a) && AllWords(b)
    ensures BlocksDiff(Blocks(a), Blocks(b), r, k + Loss(FoldWidth(|a|), i % FoldWidth(|a|), 0))
  {
    var c;
    r, c := RowOfWord(|a|, i);
    FoldedBlocksDiffer(a, b, i, r, c, k);
  }

  lemma {:induction false} BlocksDiffer(a: seq<Word>, b: seq<Word>, i: nat, k: nat) returns (at: nat)
    requires DifferOnlyAt(a, b, i) && DiffAt(a[i], b[i], k)
    requires AllWords(a) && AllWords(b)
    ensures BlocksDiff(Blocks(a), Blocks(b), at, k + WordLoss(|a|, i))
  {
    if |a| > NUM_CHUNKS {
      at := LargeBlocksDiffer(a, b, i, k);
    } else {
      at := i;
    }
  }

  lemma {:induction false} SignatureOfBlocks(a: seq<Word>, b: seq<Word>, at: nat, payload: nat, shape: seq<int>,
                                             dtype: int)
    requires DifferOnlyAt(Blocks(a), Blocks(b), at) && IsWord(Blocks(a)[at]) && IsWord(Blocks(b)[at])
    ensures TensorSignature(a, payload, shape, dtype) != TensorSignature(b, payload, shape, dtype)
       <==> Blocks(a)[at] != Blocks(b)[at]
  {
    var x: seq<int>, y: seq<int> := Blocks(a), Blocks(b);
    FinalizeDetects(x, y, at, payload);
    CyclicSums.ModSmall(x[at], Modulus());
    CyclicSums.ModSmall(y[at], Modulus());
    var sa, sb := Finalize(x, payload), Finalize(y, payload);
    var ma, mb := [sa] + shape + [dtype], [sb] + shape + [dtype];
    FinalizeDetects(ma, mb, 0, payload);
    FinalizeReduces(x, y, payload);
  }

  /** Signed signatures are equal when they are equal as words. */
  lemma {:induction false} FinalizeReduces(a: seq<int>, b: seq<int>, payload: nat)
    ensures Finalize(a, payload) % Modulus() == Finalize(b, payload) % Modulus() <==>
        Finalize(a, payload) == Finalize(b, payload)
  {
    var ha, hb := ChainStep(Chain(OFFSET_BASIS, a), payload), ChainStep(Chain(OFFSET_BASIS, b), payload);
    SignedReduces(ha);
    SignedReduces(hb);
  }

  lemma {:induction false} BlocksDecide(a: seq<Word>, b: seq<Word>, at: nat, k: nat, payload: nat, shape: seq<int>,
                                        dtype: int)
    requires BlocksDiff(Blocks(a), Blocks(b), at, k)
    ensures TensorSignature(a, payload, shape, dtype) != TensorSignature(b, payload, shape, dtype) <==> k < BITS
  {
    SignatureOfBlocks(a, b, at, payload, shape, dtype);
    DiffAtMeansDifferent(Blocks(a)[at], Blocks(b)[at], k);
  }

  /** Changing exactly one entry of the shape changes the signature exactly when it changes as a word. */
  lemma {:induction false} ShapeDetects(words: seq<Word>, payload: nat, a: seq<int>, b: seq<int>, i: nat, dtype: int)
    requires DifferOnlyAt(a, b, i)
    ensures TensorSignature(words, payload, a, dtype) == TensorSignature(words, payload, b, dtype)
       <==> a[i] % Modulus() == b[i] % Modulus()
  {
    var first := Finalize(Blocks(words), payload);
    FinalizeDetects([first] + a + [dtype], [first] + b + [dtype], i + 1, payload);
  }

  /** Changing the dtype changes the signature exactly when its value changes as a word. */
  lemma {:induction false} DtypeDetects(words: seq<Word>, payload: nat, shape: seq<int>, a: int, b: int)
    ensures TensorSignature(words, payload, shape, a) == TensorSignature(words, payload, shape, b)
       <==> a % Modulus() == b % Modulus()
  {
    var first := Finalize(Blocks(words), payload);
    FinalizeDetects([first] + shape + [a], [first] + shape + [b], |shape| + 1, payload);
  }

  /**
   Changing exactly one word of a tensor, with lowest changed bit k, changes its signature
   exactly when k plus the low zero bits of the salts it meets on the right stays below 64.
   */
  lemma {:induction false} DetectionTheorem(a: seq<Word>, b: seq<Word>, i: nat, k: nat, payload: nat, shape: seq<int>,
                                            dtype: int)
    requires AllWords(a) && AllWords(b) && DifferOnlyAt(a, b, i)
    requires k < BITS && LowestChangedBit(a[i], b[i], k)
    ensures TensorSignature(a, payload, shape, dtype) != TensorSignature(b, payload, shape, dtype)
       <==> k + WordLoss(|a|, i) < BITS
  {
    LowestBitDivides(a[i], b[i], k);
    var at := BlocksDiffer(a, b, i, k);
    BlocksDecide(a, b, at, k + WordLoss(|a|, i), payload, shape, dtype);
  }

  /** A level's salt is a multiple of 2^j, for every j up to 64, exactly when the level's number plus one is. */
  lemma {:induction false} SaltZeros(level: nat, j: nat)
    requires j <= BITS
    ensures Div2(Salt(level), j) <==> j <= Low(level + 1)
  {
    ReduceKeeps(PRIME * (level + 1), 0, j);
    OddPrimeFactor(level + 1, j);
    Div2Low(level + 1, j);
  }

  lemma {:induction false} OddPrimeFactor(d: int, j: nat)
    ensures Div2(PRIME * d, j) <==> Div2(d, j)
  {
    OddCancel(d, PRIME, j);
    assert PRIME * d == d * PRIME;
  }

  /** The salt is even, and so not what the source's comment calls it, exactly at the odd-numbered levels. */
  lemma {:induction false} OddLevelsLose(level: nat)
    ensures Salt(level) % 2 == 0 <==> level % 2 == 1
  {
    SaltZeros(level, 1);
    EvenWithLevel(Salt(level), level);
  }

  lemma {:induction false} EvenWithLevel(d: nat, level: nat)
    requires Div2(d, 1) <==> 1 <= Low(level + 1)
    ensures d % 2 == 0 <==> level % 2 == 1
  {
    assert Div2(d / 2, 0);
    assert Low(level + 1) == 0 <==> (level + 1) % 2 != 0;
  }

  /** No word loses bits exactly when the tensor has at most 1024 words, one fold level. */
  lemma {:induction false} LossFreeSize(n: nat)
    ensures (forall i :: 0 <= i < n ==> WordLoss(n, i) == 0) <==> n <= 2 * NUM_CHUNKS
  {
    if n > 2 * NUM_CHUNKS {
      var w := FoldWidth(n);
      assert w >= 3;
      var half := Half(w);
      var i := half - 1;
      assert 2 <= half < w && i < n;
      assert i % w == i by { CyclicSums.ModSmall(i, w); }
      var quarter := Half(half);
      assert Loss(w, i, 0) == Loss(half, i, 1);
      assert i >= quarter;
      assert Low(2) == 1;
      assert WordLoss(n, i) >= 1;
    } else if n > NUM_CHUNKS {
      var w := FoldWidth(n);
      assert w == 2;
      forall c | 0 <= c < 2
        ensures Loss(2, c, 0) == 0
      {
        assert Low(1) == 0 && Half(2) == 1;
      }
    }
  }

  /** Every single-word change is detected in tensors of at most 1024 words. */
  lemma {:induction false} SmallTensorsAlwaysDetect(a: seq<Word>, b: seq<Word>, i: nat, k: nat, payload: nat,
                                                    shape: seq<int>, dtype: int)
    requires AllWords(a) && AllWords(b) && DifferOnlyAt(a, b, i) && |a| <= 2 * NUM_CHUNKS
    requires k < BITS && LowestChangedBit(a[i], b[i], k)
    ensures TensorSignature(a, payload, shape, dtype) != TensorSignature(b, payload, shape, dtype)
  {
    LossFreeSize(|a|);
    DetectionTheorem(a, b, i, k, payload, shape, dtype);
  }

  // No change of exactly the sign bit of word i is visible in the signature.
  ghost predicate SignFlipHidden(a: seq<Word>, i: nat, payload: nat, shape: seq<int>, dtype: int)
    requires i < |a|
  {
    forall b :: AllWords(b) && DifferOnlyAt(a, b, i) && LowestChangedBit(a[i], b[i], BITS - 1)
      ==> TensorSignature(a, payload, shape, dtype) == TensorSignature(b, payload, shape, dtype)
  }

  /** In every larger tensor there is a word whose sign bit can flip without changing the signature. */
  lemma {:induction false} LargeTensorsMissAFlip(a: seq<Word>, payload: nat, shape: seq<int>, dtype: int)
    returns (i: nat)
    requires |a| > 2 * NUM_CHUNKS && AllWords(a)
    ensures i < |a| && SignFlipHidden(a, i, payload, shape, dtype)
  {
    LossFreeSize(|a|);
    i :| 0 <= i < |a| && WordLoss(|a|, i) > 0;
    forall b | AllWords(b) && DifferOnlyAt(a, b, i) && LowestChangedBit(a[i], b[i], BITS - 1)
      ensures TensorSignature(a, payload, shape, dtype) == TensorSignature(b, payload, shape, dtype)
    {
      DetectionTheorem(a, b, i, BITS - 1, payload, shape, dtype);
    }
  }
}
