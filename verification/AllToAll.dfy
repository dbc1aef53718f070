/**
 Representative all-to-all traffic: the balanced and the cyclic permutation matrix, the payload of
 every segment, and the exchange that carries each source's segments to their destinations.
 */
module AllToAll {
  import opened CyclicSums

  type Row = seq<int>
  type Matrix = seq<Row>

  ghost predicate Square(m: Matrix, world: nat) {
    |m| == world && forall i :: 0 <= i < world ==> |m[i]| == world && forall j :: 0 <= j < world ==> m[i][j] >= 0
  }

  function Column(m: Matrix, j: nat): (c: seq<int>)
    requires forall i :: 0 <= i < |m| ==> j < |m[i]|
    ensures |c| == |m| && forall i :: 0 <= i < |m| ==> c[i] == m[i][j]
  {
    seq(|m|, i requires 0 <= i < |m| => m[i][j])
  }

  // Every source sends, and every destination receives, the same total.
  ghost predicate Regular(m: Matrix, world: nat, units: int) {
    && Square(m, world)
    && (forall i :: 0 <= i < world ==> Sum(m[i]) == units)
    && (forall j :: 0 <= j < world ==> Sum(Column(m, j)) == units)
  }

  // ---------- the balanced matrix ----------

  // When destination j is served, counting from `start` and wrapping around.
  function Turn(world: nat, start: int, j: int): int
    requires world > 0
  {
    (j - start) % world
  }

  // The first `extra` destinations in turn get one unit more than the base.
  function Entry(base: nat, extra: nat, world: nat, start: int, j: int): int
    requires world > 0
  {
    base + if Turn(world, start, j) < extra then 1 else 0
  }

  lemma TurnIs(world: nat, start: int, index: nat, j: nat)
    requires index < world && j < world
    ensures Turn(world, start, j) == index <==> j == (start + index) % world
  {
    ModInverse(index, start, j, world);
    assert index + start == start + index;
  }

  method HandOut(row0: Row, base: nat, world: nat, start: nat, remainder: nat) returns (row: Row)
    requires start < world && remainder < world && |row0| == world && forall j :: 0 <= j < world ==> row0[j] == base
    ensures |row| == world && forall j :: 0 <= j < world ==> row[j] == Entry(base, remainder, world, start, j)
  {
    row := row0;
    forall j | 0 <= j < world
      ensures Turn(world, start, j) >= 0
    {
    }
    for index := 0 to remainder
      invariant |row| == world
      invariant forall j :: 0 <= j < world ==> row[j] == Entry(base, index, world, start, j)
    {
      var k := (start + index) % world;
      forall j | 0 <= j < world
        ensures Turn(world, start, j) == index <==> j == k
      {
        TurnIs(world, start, index, j);
      }
      row := row[k := row[k] + 1];
    }
  }

  /** Spreads the units over the destinations, handing out the remainder from `start` on, wrapping around. */
  method BalancedRow(units: nat, world: nat, start: nat) returns (row: Row)
    requires start < world
    ensures |row| == world
    ensures forall j :: 0 <= j < world ==> row[j] == Entry(units / world, units % world, world, start, j)
  {
    row := HandOut(seq(world, _ => units / world), units / world, world, start, units % world);
  }

  // A quotient everywhere and one more on the first r positions.
  function Ramp(base: int, r: int): int -> int { t => base + if t < r then 1 else 0 }
  // The same read backwards over a window of w.
  function RampBack(base: int, r: int, w: int): int -> int { t => base + if w - 1 - t < r then 1 else 0 }

  lemma {:induction false} RampSum(base: int, r: nat, n: nat)
    ensures SumOf(Ramp(base, r), 0, n) == n * base + if n < r then n else r
  {
    if n == 0 {
    } else {
      RampSum(base, r, n - 1);
      assert n * base == (n - 1) * base + base;
    }
  }

  lemma {:induction false} RampBackSum(base: int, r: nat, w: nat, n: nat)
    requires r <= w && n <= w
    ensures SumOf(RampBack(base, r, w), 0, n) == n * base + if n <= w - r then 0 else n - (w - r)
  {
    if n == 0 {
    } else {
      RampBackSum(base, r, w, n - 1);
      assert n * base == (n - 1) * base + base;
    }
  }

  function RowFunction(base: nat, extra: nat, world: nat, start: int): int -> int
    requires world > 0
  {
    j => Entry(base, extra, world, start, j)
  }

  function ColumnFunction(base: nat, extra: nat, world: nat, sequence: int, j: int): int -> int
    requires world > 0
  {
    i => Entry(base, extra, world, i + sequence, j)
  }

  lemma TurnShifts(world: nat, start: int, j: int)
    requires world > 0
    ensures Turn(world, start, j + world) == Turn(world, start, j) == Turn(world, start + world, j)
  {
    ModPlusMultiple(j - start, 1, world);
    ModPlusMultiple(j - start, -1, world);
    assert j + world - start == j - start + 1 * world && j - (start + world) == j - start + -1 * world;
  }

  lemma BalancedRowSum(base: nat, extra: nat, world: nat, start: int, row: seq<int>)
    requires world > 0 && |row| == world && extra < world
    requires forall j :: 0 <= j < world ==> row[j] == Entry(base, extra, world, start, j)
    ensures Sum(row) == world * base + extra
  {
    var f := RowFunction(base, extra, world, start);
    forall x
      ensures f(x + world) == f(x)
    {
      TurnShifts(world, start, x);
    }
    forall t | 0 <= t < world
      ensures f(start + t) == Ramp(base, extra)(t)
    {
      ModSmall(t, world);
      assert start + t - start == t;
    }
    CyclicSum(row, f, start, Ramp(base, extra));
    RampSum(base, extra, world);
  }

  lemma ColumnRepeats(base: nat, extra: nat, world: nat, sequence: int, j: int, x: int)
    requires world > 0
    ensures Entry(base, extra, world, x + world + sequence, j) == Entry(base, extra, world, x + sequence, j)
  {
    TurnShifts(world, x + sequence, j);
    assert x + world + sequence == x + sequence + world;
  }

  lemma ColumnRunsBackwards(base: nat, extra: nat, world: nat, sequence: int, j: int, t: nat)
    requires t < world
    ensures Entry(base, extra, world, j - sequence - (world - 1) + t + sequence, j) == RampBack(base, extra, world)(t)
  {
  }

  lemma BalancedColumnSum(base: nat, extra: nat, world: nat, sequence: int, j: int, column: seq<int>)
    requires world > 0 && |column| == world && extra < world
    requires forall i :: 0 <= i < world ==> column[i] == Entry(base, extra, world, i + sequence, j)
    ensures Sum(column) == world * base + extra
  {
    var f := ColumnFunction(base, extra, world, sequence, j);
    var lo := j - sequence - (world - 1);
    forall x
      ensures f(x + world) == f(x)
    {
      ColumnRepeats(base, extra, world, sequence, j, x);
    }
    forall t | 0 <= t < world
      ensures f(lo + t) == RampBack(base, extra, world)(t)
    {
      ColumnRunsBackwards(base, extra, world, sequence, j, t);
    }
    CyclicSum(column, f, lo, RampBack(base, extra, world));
    RampBackSum(base, extra, world, world);
  }

  // Where the source's remainder is handed out first.
  function FirstServed(world: nat, sequence: nat, source: nat): (start: nat)
    requires world > 0
    ensures start < world
  {
    (source + sequence) % world
  }

  /**
   The remainder is shared out fairly: over `world` consecutive sequences each destination is served first
   by a source exactly once, and within one sequence exactly one source serves it first.
   */
  lemma FirstServedFairly(world: nat, sequence: nat, source: nat, k: nat, j: nat)
    requires source < world && k < world && j < world
    ensures FirstServed(world, sequence + k, source) == j <==> k == (j - (source + sequence)) % world
    ensures FirstServed(world, sequence, k) == j <==> k == (j - sequence) % world
  {
    assert source + (sequence + k) == k + (source + sequence);
    ModInverse(k, source + sequence, j, world);
    ModInverse(k, sequence, j, world);
  }

  // Row i is a balanced row starting at i plus the sequence number, modulo the group size.
  ghost predicate IsBalanced(m: Matrix, base: nat, extra: nat, world: nat, sequence: nat)
    requires world > 0
  {
    && |m| == world && (forall i :: 0 <= i < world ==> |m[i]| == world)
    && forall i, j :: 0 <= i < world && 0 <= j < world ==>
         m[i][j] == Entry(base, extra, world, FirstServed(world, sequence, i), j)
  }

  lemma ReducedStart(base: nat, extra: nat, world: nat, start: int, j: int)
    requires world > 0
    ensures Entry(base, extra, world, start % world, j) == Entry(base, extra, world, start, j)
  {
    ModOperand(j, start, world);
  }

  /** In the balanced matrix every row and every column sums to the units, whatever the group size and sequence. */
  lemma BalancedIsRegular(m: Matrix, base: nat, extra: nat, world: nat, sequence: nat)
    requires world > 0 && extra < world && IsBalanced(m, base, extra, world, sequence)
    ensures Regular(m, world, world * base + extra)
  {
    forall i | 0 <= i < world
      ensures Sum(m[i]) == world * base + extra
    {
      BalancedRowSum(base, extra, world, FirstServed(world, sequence, i), m[i]);
    }
    forall j | 0 <= j < world
      ensures Sum(Column(m, j)) == world * base + extra
    {
      forall i | 0 <= i < world
        ensures Column(m, j)[i] == Entry(base, extra, world, i + sequence, j)
      {
        ReducedStart(base, extra, world, i + sequence, j);
      }
      BalancedColumnSum(base, extra, world, sequence, j, Column(m, j));
    }
  }

  // ---------- the permutation matrix ----------

  function PermutationMatrix(units: nat, world: nat, offset: nat): (m: Matrix)
    requires world > 0
    ensures |m| == world && forall i :: 0 <= i < world ==> |m[i]| == world
    ensures forall i, j :: 0 <= i < world && 0 <= j < world ==>
        m[i][j] == if j == (i + offset) % world then units else 0
  {
    seq(world, i => seq(world, j => if j == (i + offset) % world then units else 0))
  }

  /** The cyclic permutation also sends and receives the units everywhere. */
  lemma PermutationIsRegular(units: nat, world: nat, offset: nat)
    requires world > 0
    ensures Regular(PermutationMatrix(units, world, offset), world, units)
  {
    var m := PermutationMatrix(units, world, offset);
    forall i | 0 <= i < world
      ensures Sum(m[i]) == units
    {
      SingleTerm(m[i], (i + offset) % world, units);
    }
    forall j | 0 <= j < world
      ensures Sum(Column(m, j)) == units
    {
      forall i | 0 <= i < world
        ensures Column(m, j)[i] == if i == (j - offset) % world then units else 0
      {
        ModInverse(i, offset, j, world);
      }
      SingleTerm(Column(m, j), (j - offset) % world, units);
    }
  }

  function Offset(world: nat, sequence: nat): nat
    requires world > 0
  {
    if world == 1 then 0 else 1 + sequence % (world - 1)
  }

  /** Over `world` - 1 consecutive sequences the permutation uses every other offset exactly once. */
  lemma OffsetsFairly(world: nat, sequence: nat, k: nat, offset: nat)
    requires world > 1 && k < world - 1 && 1 <= offset < world
    ensures Offset(world, sequence + k) == offset <==> k == (offset - 1 - sequence) % (world - 1)
  {
    assert sequence + k == k + sequence;
    ModInverse(k, sequence, offset - 1, world - 1);
  }

  /** In a group of more than one, no rank sends to itself: each uses exactly one route to another rank. */
  lemma PermutationHasNoSelfTraffic(units: nat, world: nat, sequence: nat, i: nat)
    requires world > 1 && i < world
    ensures PermutationMatrix(units, world, Offset(world, sequence))[i][i] == 0
  {
  }

  // ---------- the policy ----------

  function Units(maxBytes: nat, bytesPerUnit: nat): (units: nat)
    requires bytesPerUnit > 0
    ensures units >= 1
    ensures units == 1 || units * bytesPerUnit <= maxBytes
    ensures (units + 1) * bytesPerUnit > maxBytes
  {
    var q := maxBytes / bytesPerUnit;
    assert maxBytes == q * bytesPerUnit + maxBytes % bytesPerUnit;
    assert (q + 1) * bytesPerUnit == q * bytesPerUnit + bytesPerUnit;
    assert q < 1 ==> q * bytesPerUnit == 0;
    if q < 1 then 1 else q
  }

  method BalancedRows(units: nat, world: nat, sequence: nat) returns (m: Matrix)
    requires world > 0
    ensures IsBalanced(m, units / world, units % world, world, sequence)
  {
    m := [];
    for source := 0 to world
      invariant |m| == source && forall i :: 0 <= i < source ==> |m[i]| == world
      invariant forall i, j :: 0 <= i < source && 0 <= j < world ==>
        m[i][j] == Entry(units / world, units % world, world, FirstServed(world, sequence, i), j)
    {
      var row := BalancedRow(units, world, FirstServed(world, sequence, source));
      m := m + [row];
    }
  }

  method BalancedMatrix(units: nat, world: nat, sequence: nat) returns (m: Matrix)
    requires world > 0
    ensures IsBalanced(m, units / world, units % world, world, sequence)
    ensures Regular(m, world, units)
  {
    m := BalancedRows(units, world, sequence);
    BalancedIsRegular(m, units / world, units % world, world, sequence);
    assert units == world * (units / world) + units % world;
  }

  /** One dense and one sparse matrix; the second is dropped when it equals the first. */
  method Generate(world: nat, sequence: nat, maxBytes: nat, bytesPerUnit: nat) returns (matrices: seq<Matrix>)
    requires bytesPerUnit > 0
    ensures matrices == [] <==> world == 0
    ensures forall k :: 0 <= k < |matrices| ==> Regular(matrices[k], world, Units(maxBytes, bytesPerUnit))
    ensures world > 0 ==>
            var units := Units(maxBytes, bytesPerUnit);
            IsBalanced(matrices[0], units / world, units % world, world, sequence)
    ensures world > 0 ==>
            var permutation := PermutationMatrix(Units(maxBytes, bytesPerUnit), world, Offset(world, sequence));
            matrices[1..] == if permutation == matrices[0] then [] else [permutation]
  {
    if world < 1 {
      return [];
    }
    var units := Units(maxBytes, bytesPerUnit);
    var balanced := BalancedMatrix(units, world, sequence);
    var permutation := PermutationMatrix(units, world, Offset(world, sequence));
    PermutationIsRegular(units, world, Offset(world, sequence));
    matrices := if permutation != balanced then [balanced, permutation] else [balanced];
  }
}
