/**
 * The route decoder of the map screen: Google's Encoded Polyline Algorithm
 * Format. Each coordinate delta is a run of characters; a character's code
 * minus 63 carries five bits of the value (least significant group first)
 * and the flag 0x20 when more characters follow. The collected bits are
 * zig-zag decoded into a signed delta, and the deltas are summed into the
 * latitude and the longitude of each point.
 *
 * The decoder computes with Kotlin `Int`s. A `Word` here is the 32-bit
 * pattern of an `Int`, read as an unsigned number, and each operator the
 * decoder uses is written out on it: `or` bit by bit, `shl` with its shift
 * count taken modulo 32, the arithmetic `shr`, `inv`, and `+` wrapping
 * around. Points are kept in the decoder's own unit, 1e-5 degree; the
 * final division by 1E5 is not modelled.
 */
module Polyline {
  import opened Wrappers

  /** The 32 bits of a Kotlin `Int`, as an unsigned number. */
  type Word = x: int | 0 <= x < 0x1_0000_0000

  /** The signed value of a word (two's complement). */
  function Value(w: Word): (v: int)
    ensures -0x8000_0000 <= v < 0x8000_0000
    ensures v % 0x1_0000_0000 == w
  {
    if w < 0x8000_0000 then w else w - 0x1_0000_0000
  }

  function Pow2(n: nat): (r: nat)
    ensures r >= 1
  {
    if n == 0 then 1 else 2 * Pow2(n - 1)
  }

  /** `a or b` on the lowest `n` bits. */
  function BitOr(a: nat, b: nat, n: nat): (r: nat)
    ensures r < Pow2(n)
  {
    if n == 0 then 0
    else 2 * BitOr(a / 2, b / 2, n - 1) + (if a % 2 == 1 || b % 2 == 1 then 1 else 0)
  }

  lemma Pow2Of32()
    ensures Pow2(32) == 0x1_0000_0000
  {
    assert Pow2(2) == 4;
    assert Pow2(4) == 16 by { Pow2Add(2, 2); }
    assert Pow2(8) == 256 by { Pow2Add(4, 4); }
    assert Pow2(16) == 0x1_0000 by { Pow2Add(8, 8); }
    Pow2Add(16, 16);
  }

  /** `a or b` on words. */
  function Or(a: Word, b: Word): Word {
    Pow2Of32();
    BitOr(a, b, 32)
  }

  /** `c` doubled `k` times, that is `c * 2^k`. */
  function Shifted(c: nat, k: nat): nat {
    if k == 0 then c else 2 * Shifted(c, k - 1)
  }

  /** `x shl s`: the shift count is taken modulo 32 and the bits above 31 are lost. */
  function Shl(x: Word, s: int): Word {
    Shifted(x, s % 32) % 0x1_0000_0000
  }

  /** `r shr 1`: the arithmetic shift, which keeps the sign bit. */
  function Asr1(r: Word): Word {
    r / 2 + (if r >= 0x8000_0000 then 0x8000_0000 else 0)
  }

  /** `x.inv()`: every bit flipped. */
  function Inv(x: Word): Word {
    0xFFFF_FFFF - x
  }

  /** `a + b` on `Int`s, wrapping around. */
  function Add(a: Word, b: Word): Word {
    if a + b < 0x1_0000_0000 then a + b else a + b - 0x1_0000_0000
  }

  /** A decoded point, both coordinates in units of 1e-5 degree. */
  datatype LatLngE5 = LatLngE5(lat: Word, lng: Word)

  // ---------------------------------------------------------------------------
  // Decoding, as functions

  /** `b and 0x1f` for an `Int` b: its five lowest bits. */
  function Low5(b: int): Word {
    b % 32
  }

  /** The zig-zag step: an odd value is a negative delta, `(r shr 1).inv()`. */
  function ZigZag(r: Word): Word {
    if r % 2 != 0 then Inv(Asr1(r)) else Asr1(r)
  }

  /**
   * One chunk read from position `i` with `shift` and `acc` the state of the
   * loop so far: the bits it collects and the position after its last
   * character, or `None` when the text ends before a character below 0x20
   * (the source's `encoded[index++]` then fails).
   */
  function Chunk(s: string, i: nat, shift: nat, acc: Word): (r: Option<(Word, nat)>)
    requires i <= |s|
    ensures r.Some? ==> i < r.value.1 <= |s|
    decreases |s| - i
  {
    if i == |s| then None
    else
      var b := s[i] as int - 63;
      var acc' := Or(acc, Shl(Low5(b), shift));
      if b >= 0x20 then Chunk(s, i + 1, shift + 5, acc') else Some((acc', i + 1))
  }

  /** `Some(p + q)` for a result `Some(q)`; failure stays failure. */
  function Prepend(p: seq<LatLngE5>, r: Option<seq<LatLngE5>>): Option<seq<LatLngE5>> {
    match r
    case None => None
    case Some(q) => Some(p + q)
  }

  /** The points encoded in `s[i..]`, starting from the running sums `lat` and `lng`. */
  function DecodeFrom(s: string, i: nat, lat: Word, lng: Word): Option<seq<LatLngE5>>
    requires i <= |s|
    decreases |s| - i
  {
    if i == |s| then Some([])
    else
      match Chunk(s, i, 0, 0)
      case None => None
      case Some((r1, j)) =>
        match Chunk(s, j, 0, 0)
        case None => None
        case Some((r2, k)) =>
          var lat', lng' := Add(lat, ZigZag(r1)), Add(lng, ZigZag(r2));
          Prepend([LatLngE5(lat', lng')], DecodeFrom(s, k, lat', lng'))
  }

  /** `decodePolyline`: the points of an encoded line, or `None` where the source throws. */
  function Decode(s: string): Option<seq<LatLngE5>> {
    DecodeFrom(s, 0, 0, 0)
  }

  // ---------------------------------------------------------------------------
  // Decoding, as the source's loops

  /** One `do … while (b >= 0x20)` loop, reading a chunk that starts at `start`. */
  method ReadChunk(encoded: string, start: nat) returns (r: Option<(Word, nat)>)
    requires start <= |encoded|
    ensures r == Chunk(encoded, start, 0, 0)
  {
    var index := start;
    var shift := 0;
    var result: Word := 0;
    var b := 0x20;
    while b >= 0x20
      invariant start <= index <= |encoded|
      invariant b >= 0x20 ==> Chunk(encoded, start, 0, 0) == Chunk(encoded, index, shift, result)
      invariant b < 0x20 ==> Chunk(encoded, start, 0, 0) == Some((result, index))
      decreases |encoded| - index + (if b >= 0x20 then 1 else 0)
    {
      if index == |encoded| {
        return None;
      }
      b := encoded[index] as int - 63;
      index := index + 1;
      result := Or(result, Shl(Low5(b), shift));
      shift := shift + 5;
    }
    return Some((result, index));
  }

  /** `decodePolyline`: a latitude chunk and a longitude chunk per point, summed as it goes. */
  method DecodePolyline(encoded: string) returns (r: Option<seq<LatLngE5>>)
    ensures r == Decode(encoded)
  {
    var poly: seq<LatLngE5> := [];
    var index := 0;
    var len := |encoded|;
    var lat: Word := 0;
    var lng: Word := 0;
    assert Decode(encoded) == Prepend([], DecodeFrom(encoded, 0, 0, 0)) by {
      if DecodeFrom(encoded, 0, 0, 0).Some? {
        assert [] + DecodeFrom(encoded, 0, 0, 0).value == DecodeFrom(encoded, 0, 0, 0).value;
      }
    }
    while index < len
      invariant 0 <= index <= len
      invariant Decode(encoded) == Prepend(poly, DecodeFrom(encoded, index, lat, lng))
      decreases len - index
    {
      var latChunk := ReadChunk(encoded, index);
      if latChunk.None? {
        return None;
      }
      var lngChunk := ReadChunk(encoded, latChunk.value.1);
      if lngChunk.None? {
        return None;
      }
      var p := LatLngE5(Add(lat, ZigZag(latChunk.value.0)), Add(lng, ZigZag(lngChunk.value.0)));
      ghost var rest := DecodeFrom(encoded, lngChunk.value.1, p.lat, p.lng);
      assert DecodeFrom(encoded, index, lat, lng) == Prepend([p], rest);
      assert rest.Some? ==> poly + ([p] + rest.value) == (poly + [p]) + rest.value;
      lat, lng := p.lat, p.lng;
      poly := poly + [p];
      index := lngChunk.value.1;
    }
    assert poly + [] == poly;
    return Some(poly);
  }

  // ---------------------------------------------------------------------------
  // What a chunk reads

  /** The character at `k` carries the flag 0x20: the chunk goes on after it. */
  predicate Continues(s: string, k: nat)
    requires k < |s|
  {
    s[k] as int - 63 >= 0x20
  }

  /**
   * A chunk fails exactly when every character left carries the flag, and
   * otherwise ends just after the first character without it.
   */
  lemma {:induction false} ChunkStops(s: string, i: nat, shift: nat, acc: Word)
    requires i <= |s|
    ensures Chunk(s, i, shift, acc).None? <==> forall k :: i <= k < |s| ==> Continues(s, k)
    ensures Chunk(s, i, shift, acc).Some? ==>
              var j := Chunk(s, i, shift, acc).value.1;
              !Continues(s, j - 1) && forall k :: i <= k < j - 1 ==> Continues(s, k)
    decreases |s| - i
  {
    if i == |s| {
      assert Chunk(s, i, shift, acc).None?;
    } else if Continues(s, i) {
      var acc' := Or(acc, Shl(Low5(s[i] as int - 63), shift));
      ChunkContinue(s, i, shift, acc, i + 1, shift + 5, acc');
      ChunkStops(s, i + 1, shift + 5, acc');
      assert (forall k :: i <= k < |s| ==> Continues(s, k)) <==>
             (forall k :: i + 1 <= k < |s| ==> Continues(s, k));
      var r := Chunk(s, i + 1, shift + 5, acc');
      if r.Some? {
        var j := r.value.1;
        assert (forall k :: i <= k < j - 1 ==> Continues(s, k)) <==>
               (forall k :: i + 1 <= k < j - 1 ==> Continues(s, k));
      }
    } else {
      ChunkEnd(s, i, shift, acc);
    }
  }

  /** The chunk read at `i` ends at `j` exactly when `s[j - 1]` is the first character from `i` on without the flag. */
  lemma ChunkEndsAt(s: string, i: nat, j: nat)
    requires i < j <= |s|
    ensures (Chunk(s, i, 0, 0).Some? && Chunk(s, i, 0, 0).value.1 == j) <==>
            (!Continues(s, j - 1) && forall k :: i <= k < j - 1 ==> Continues(s, k))
  {
    ChunkStops(s, i, 0, 0);
  }

  /** The five-bit groups of the first `t` characters from `i`, group u weighted by 2^(5u). */
  function Groups(s: string, i: nat, t: nat): nat
    requires i + t <= |s|
    decreases t
  {
    if t == 0 then 0 else Groups(s, i, t - 1) + Group(s[i + t - 1], t - 1)
  }

  /** The five bits character `ch` carries, weighted as the u-th group of a chunk. */
  function Group(ch: char, u: nat): nat {
    Low5(ch as int - 63) * Pow2(5 * u)
  }

  lemma {:induction false} GroupsBound(s: string, i: nat, t: nat)
    requires i + t <= |s|
    ensures Groups(s, i, t) < Pow2(5 * t)
    decreases t
  {
    if t > 0 {
      var g := Groups(s, i, t - 1);
      var p := Pow2(5 * (t - 1));
      var l := Low5(s[i + t - 1] as int - 63);
      assert Groups(s, i, t) == g + Group(s[i + t - 1], t - 1);
      assert Group(s[i + t - 1], t - 1) == l * p;
      GroupsBound(s, i, t - 1);
      assert Pow2(5 * t) == 32 * p by {
        Pow2Add(5 * (t - 1), 5);
        assert Pow2(5) == 32;
      }
      MulMono(l, 31, p);
    }
  }

  /**
   * A chunk of at most seven characters holds the sum of its five-bit
   * groups, the group of its u-th character shifted left by 5u, cut to 32
   * bits: the groups do not overlap, so `or` adds them.
   */
  lemma ChunkValue(s: string, i: nat, j: nat)
    requires i < j <= |s| && j - i <= 7
    requires !Continues(s, j - 1) && forall k :: i <= k < j - 1 ==> Continues(s, k)
    ensures Chunk(s, i, 0, 0) == Some((Groups(s, i, j - i) % 0x1_0000_0000, j))
  {
    var t := j - i - 1;
    var acc: Word := Groups(s, i, t) % 0x1_0000_0000;
    var acc': Word := Groups(s, i, j - i) % 0x1_0000_0000;
    assert Chunk(s, i, 0, 0) == Chunk(s, i + t, 5 * t, acc) by {
      ChunkPrefix(s, i, t);
    }
    assert Chunk(s, i + t, 5 * t, acc) == Some((acc', j)) by {
      GroupsOr(s, i, t, j - i);
      assert i + t == j - 1;
      ChunkEnd(s, i + t, 5 * t, acc);
    }
  }

  /** Reading `t` flagged characters leaves the shift at 5t and their groups collected. */
  lemma {:induction false} ChunkPrefix(s: string, i: nat, t: nat)
    requires t <= 7 && i + t <= |s|
    requires forall k :: i <= k < i + t ==> Continues(s, k)
    ensures Chunk(s, i, 0, 0) == Chunk(s, i + t, 5 * t, Groups(s, i, t) % 0x1_0000_0000)
    decreases t
  {
    if t == 0 {
      assert Groups(s, i, 0) == 0;
    } else {
      var u := t - 1;
      var acc: Word := Groups(s, i, u) % 0x1_0000_0000;
      var acc': Word := Groups(s, i, t) % 0x1_0000_0000;
      assert Chunk(s, i, 0, 0) == Chunk(s, i + u, 5 * u, acc) by {
        ChunkPrefix(s, i, u);
      }
      assert Chunk(s, i + u, 5 * u, acc) == Chunk(s, i + t, 5 * t, acc') by {
        GroupsOr(s, i, u, t);
        assert Continues(s, i + u);
        ChunkContinue(s, i + u, 5 * u, acc, i + t, 5 * t, acc');
      }
    }
  }

  /** The chunk's `or` with the group of character `t` gives the groups of `t'` = t + 1 characters. */
  lemma GroupsOr(s: string, i: nat, t: nat, t': nat)
    requires t <= 6 && i + t < |s| && t' == t + 1
    ensures Or(Groups(s, i, t) % 0x1_0000_0000, Shl(Low5(s[i + t] as int - 63), 5 * t)) ==
            Groups(s, i, t') % 0x1_0000_0000
  {
    GroupsBound(s, i, t);
    ChunkStepValue(Groups(s, i, t), s[i + t] as int - 63, t);
    GroupsNext(s, i, t, t');
    assert Group(s[i + t], t) == Low5(s[i + t] as int - 63) * Pow2(5 * t);
  }

  lemma GroupsNext(s: string, i: nat, t: nat, t': nat)
    requires i + t < |s| && t' == t + 1
    ensures Groups(s, i, t') == Groups(s, i, t) + Group(s[i + t], t)
  {
  }

  /** The last step of a chunk, over a character without the flag. */
  lemma ChunkEnd(s: string, k: nat, shift: nat, acc: Word)
    requires k < |s| && !Continues(s, k)
    ensures Chunk(s, k, shift, acc) == Some((Or(acc, Shl(Low5(s[k] as int - 63), shift)), k + 1))
  {
  }

  /** One step of a chunk over a flagged character, to position `k'` with shift `shift'` and bits `acc'`. */
  lemma ChunkContinue(s: string, k: nat, shift: nat, acc: Word, k': nat, shift': nat, acc': Word)
    requires k < |s| && Continues(s, k)
    requires k' == k + 1 && shift' == shift + 5 && acc' == Or(acc, Shl(Low5(s[k] as int - 63), shift))
    ensures Chunk(s, k, shift, acc) == Chunk(s, k', shift', acc')
  {
  }

  /** One character more: `or` with the shifted group adds it, modulo 2^32. */
  lemma ChunkStepValue(g: nat, c: int, t: nat)
    requires t <= 6 && g < Pow2(5 * t)
    ensures Or(g % 0x1_0000_0000, Shl(Low5(c), 5 * t)) == (g + Low5(c) * Pow2(5 * t)) % 0x1_0000_0000
  {
    var l := Low5(c);
    var k := 5 * t;
    var a, b := Pow2(k), Pow2(32 - k);
    var m := 0x1_0000_0000;
    assert a * b == m by {
      Pow2Of32();
      Pow2Add(k, 32 - k);
    }
    assert g % m == g by {
      MulAtLeast(b, a);
    }
    var x := (l % b) * a;
    assert Shl(l, k) == x by {
      ShlIsProduct(l, k);
      MulMod(l, a, b);
    }
    assert Or(g, x) == (g + x) % m by {
      ModOfMultiple(l % b, a);
      OrIsSum(g, x, k);
    }
    assert (g + x) % m == (g + l * a) % m by {
      ModSplit(g, l, a, b);
    }
  }

  /** Adding `l * a` or its remainder part `(l % b) * a` gives the same remainder modulo `a * b`. */
  lemma ModSplit(g: nat, l: nat, a: nat, b: nat)
    requires a > 0 && b > 0
    ensures (g + (l % b) * a) % (a * b) == (g + l * a) % (a * b)
  {
    ModAddMultiple(g + (l % b) * a, l / b, a * b);
    SplitProduct(l, a, b);
  }

  /** `l * a` split at the multiples of `a * b`. */
  lemma SplitProduct(l: nat, a: nat, b: nat)
    requires b > 0
    ensures l * a == (l / b) * (a * b) + (l % b) * a
  {
    var q, r := l / b, l % b;
    assert l == q * b + r;
    calc {
      l * a;
      (q * b + r) * a;
      q * b * a + r * a;
      q * (a * b) + r * a;
    }
  }

  /** `x shl k` for k below 32 is `x * 2^k` cut to 32 bits. */
  lemma ShlIsProduct(x: Word, k: nat)
    requires k < 32
    ensures Shl(x, k) == (x * Pow2(k)) % 0x1_0000_0000
  {
    assert k % 32 == k;
    ShiftedIsProduct(x, k);
  }

  /** `a or b` on words whose bits do not overlap is their sum, cut to 32 bits. */
  lemma OrIsSum(a: Word, b: Word, m: nat)
    requires a < Pow2(m) && b % Pow2(m) == 0
    ensures Or(a, b) == (a + b) % 0x1_0000_0000
  {
    BitOrDisjoint(a, b, m, 32);
    Pow2Of32();
  }

  lemma ModOfMultiple(q: nat, a: nat)
    requires a > 0
    ensures (q * a) % a == 0
  {
    ModUnique(q * a, a, q, 0);
  }

  lemma {:induction false} ShiftedIsProduct(c: nat, k: nat)
    ensures Shifted(c, k) == c * Pow2(k)
    decreases k
  {
    if k > 0 {
      ShiftedIsProduct(c, k - 1);
    }
  }

  /** `r` is the remainder of `q * m + r`. */
  lemma ModUnique(x: int, m: nat, q: int, r: int)
    requires m > 0 && 0 <= r < m && x == q * m + r
    ensures x % m == r
  {
    var q', r' := x / m, x % m;
    assert x == q' * m + r';
    var d := q - q';
    assert d * m == r' - r;
    if d >= 1 {
      MulAtLeast(d, m);
    } else if d <= -1 {
      assert (-d) * m == -(d * m);
      MulAtLeast(-d, m);
    }
  }

  lemma MulMono(x: nat, y: nat, p: nat)
    requires x <= y
    ensures x * p <= y * p
  {
    var d := y - x;
    assert d * p >= 0;
    assert y * p == x * p + d * p;
  }

  lemma MulAtLeast(d: int, m: nat)
    requires d >= 1
    ensures d * m >= m
  {
    var e := d - 1;
    assert e * m >= 0;
    assert d * m == e * m + m;
  }

  lemma MulMod(l: nat, a: nat, b: nat)
    requires a > 0 && b > 0
    ensures (l * a) % (a * b) == (l % b) * a
  {
    var q, r := l / b, l % b;
    assert l == q * b + r;
    assert l * a == q * (a * b) + r * a;
    assert r * a < a * b;
    ModUnique(l * a, a * b, q, r * a);
  }

  lemma ModAddMultiple(x: nat, q: nat, m: nat)
    requires m > 0
    ensures (x + q * m) % m == x % m
  {
    ModUnique(x + q * m, m, x / m + q, x % m);
  }

  /** Doubling `x` and adding a bit doubles its remainder and adds the bit. */
  lemma ModDouble(x: nat, p: nat, r: nat)
    requires p > 0 && r < 2
    ensures 2 * (x % p) + r == (2 * x + r) % (2 * p)
  {
    ModUnique(2 * x + r, 2 * p, x / p, 2 * (x % p) + r);
  }

  lemma {:induction false} BitOrZero(b: nat, n: nat)
    ensures BitOr(0, b, n) == b % Pow2(n)
    decreases n
  {
    if n > 0 {
      BitOrZero(b / 2, n - 1);
      ModDouble(b / 2, Pow2(n - 1), b % 2);
    }
  }

  /** `a or b` is `a + b` (cut to n bits) when `a` lies below bit m and `b` has no bit below m. */
  lemma {:induction false} BitOrDisjoint(a: nat, b: nat, m: nat, n: nat)
    requires a < Pow2(m) && b % Pow2(m) == 0
    ensures BitOr(a, b, n) == (a + b) % Pow2(n)
    decreases n
  {
    if n > 0 {
      if m == 0 {
        BitOrZero(b, n);
      } else {
        var p := Pow2(m - 1);
        assert Pow2(m) == 2 * p;
        HalveMultiple(b, p);
        assert a / 2 < p;
        BitOrDisjoint(a / 2, b / 2, m - 1, n - 1);
        ModDouble(a / 2 + b / 2, Pow2(n - 1), a % 2);
      }
    }
  }

  /** Half of a multiple of `2 * p` is an even number's half and a multiple of `p`. */
  lemma HalveMultiple(b: nat, p: nat)
    requires p > 0 && b % (2 * p) == 0
    ensures b % 2 == 0 && (b / 2) % p == 0
  {
    var q := b / (2 * p);
    assert b == q * (2 * p);
    assert b == 2 * (q * p);
    ModOfMultiple(q, p);
  }

  // ---------------------------------------------------------------------------
  // Points are running sums of the chunk values

  /** The chunk values of `s[i..]` one after another, or `None` when the text ends inside a chunk. */
  function ChunksFrom(s: string, i: nat): Option<seq<Word>>
    requires i <= |s|
    decreases |s| - i
  {
    if i == |s| then Some([])
    else
      match Chunk(s, i, 0, 0)
      case None => None
      case Some((r, j)) =>
        match ChunksFrom(s, j)
        case None => None
        case Some(t) => Some([r] + t)
  }

  /** The sum of the deltas at positions 0, 2, …, 2k of `t` (the latitude of point k). */
  function LatSum(t: seq<Word>, k: nat): Word
    requires 2 * k + 2 <= |t|
    decreases k
  {
    if k == 0 then ZigZag(t[0]) else Add(ZigZag(t[0]), LatSum(t[2..], k - 1))
  }

  /** The sum of the deltas at positions 1, 3, …, 2k+1 of `t` (the longitude of point k). */
  function LngSum(t: seq<Word>, k: nat): Word
    requires 2 * k + 2 <= |t|
    decreases k
  {
    if k == 0 then ZigZag(t[1]) else Add(ZigZag(t[1]), LngSum(t[2..], k - 1))
  }

  lemma AddAssoc(a: Word, b: Word, c: Word)
    ensures Add(Add(a, b), c) == Add(a, Add(b, c))
  {
  }

  /**
   * Decoding `s[i..]` from (`lat`, `lng`) succeeds exactly when the text
   * splits into whole chunks and their number is even; then there is one
   * point per pair of chunks, and point k is the running sum of the first
   * k+1 latitude deltas and of the first k+1 longitude deltas.
   */
  predicate RunningSums(s: string, i: nat, lat: Word, lng: Word)
    requires i <= |s|
  {
    SumsOfChunks(DecodeFrom(s, i, lat, lng), ChunksFrom(s, i), lat, lng)
  }

  /** `d` holds the running sums, from (`lat`, `lng`), of the chunk values `c` taken in pairs. */
  predicate SumsOfChunks(d: Option<seq<LatLngE5>>, c: Option<seq<Word>>, lat: Word, lng: Word) {
    (d.Some? <==> c.Some? && |c.value| % 2 == 0) &&
    (d.Some? ==>
       2 * |d.value| == |c.value| &&
       forall k :: 0 <= k < |d.value| ==>
         d.value[k] == LatLngE5(Add(lat, LatSum(c.value, k)), Add(lng, LngSum(c.value, k))))
  }

  lemma {:induction false} DecodeFromIsRunningSums(s: string, i: nat, lat: Word, lng: Word)
    requires i <= |s|
    ensures RunningSums(s, i, lat, lng)
    decreases |s| - i
  {
    if i == |s| {
      assert DecodeFrom(s, i, lat, lng) == Some([]);
      assert ChunksFrom(s, i) == Some([]);
    } else if Chunk(s, i, 0, 0).None? {
      assert DecodeFrom(s, i, lat, lng).None?;
      assert ChunksFrom(s, i).None?;
    } else {
      var (r1, j) := Chunk(s, i, 0, 0).value;
      if j == |s| {
        assert DecodeFrom(s, i, lat, lng).None?;
        assert ChunksFrom(s, j) == Some([]);
        assert [r1] + [] == [r1];
        assert ChunksFrom(s, i) == Some([r1]);
      } else if Chunk(s, j, 0, 0).None? {
        assert DecodeFrom(s, i, lat, lng).None?;
        assert ChunksFrom(s, j).None?;
        assert ChunksFrom(s, i).None?;
      } else {
        var (r2, k) := Chunk(s, j, 0, 0).value;
        DecodeFromIsRunningSums(s, k, Add(lat, ZigZag(r1)), Add(lng, ZigZag(r2)));
        RunningSumsStep(s, i, lat, lng, r1, j, r2, k);
      }
    }
  }

  /** One point further: the two chunks at `i` and what follows them. */
  lemma RunningSumsStep(s: string, i: nat, lat: Word, lng: Word, r1: Word, j: nat, r2: Word, k: nat)
    requires i < j < k <= |s|
    requires Chunk(s, i, 0, 0) == Some((r1, j)) && Chunk(s, j, 0, 0) == Some((r2, k))
    requires RunningSums(s, k, Add(lat, ZigZag(r1)), Add(lng, ZigZag(r2)))
    ensures RunningSums(s, i, lat, lng)
  {
    var lat', lng' := Add(lat, ZigZag(r1)), Add(lng, ZigZag(r2));
    var d, c := DecodeFrom(s, k, lat', lng'), ChunksFrom(s, k);
    assert DecodeFrom(s, i, lat, lng) == Prepend([LatLngE5(lat', lng')], d);
    assert ChunksFrom(s, j) == PrependWords([r2], c);
    assert ChunksFrom(s, i) == PrependWords([r1], PrependWords([r2], c));
    SumsOfChunksStep(d, c, lat, lng, r1, r2);
  }

  /** `Some([w] + t)` for a result `Some(t)`; failure stays failure. */
  function PrependWords(w: seq<Word>, c: Option<seq<Word>>): Option<seq<Word>> {
    match c
    case None => None
    case Some(t) => Some(w + t)
  }

  lemma SumsOfChunksStep(d: Option<seq<LatLngE5>>, c: Option<seq<Word>>, lat: Word, lng: Word, r1: Word, r2: Word)
    requires SumsOfChunks(d, c, Add(lat, ZigZag(r1)), Add(lng, ZigZag(r2)))
    ensures SumsOfChunks(Prepend([LatLngE5(Add(lat, ZigZag(r1)), Add(lng, ZigZag(r2)))], d),
                         PrependWords([r1], PrependWords([r2], c)), lat, lng)
  {
    var lat', lng' := Add(lat, ZigZag(r1)), Add(lng, ZigZag(r2));
    if c.Some? {
      var t' := c.value;
      var t := [r1] + ([r2] + t');
      assert |t| == |t'| + 2;
      if d.Some? {
        var p' := d.value;
        var p := [LatLngE5(lat', lng')] + p';
        assert t[2..] == t';
        forall n | 0 <= n < |p|
          ensures p[n] == LatLngE5(Add(lat, LatSum(t, n)), Add(lng, LngSum(t, n)))
        {
          if n > 0 {
            assert p[n] == p'[n - 1];
            AddAssoc(lat, ZigZag(r1), LatSum(t', n - 1));
            AddAssoc(lng, ZigZag(r2), LngSum(t', n - 1));
          }
        }
      }
    }
  }

  /** The empty text is the empty line. */
  lemma DecodeEmpty()
    ensures Decode("") == Some([])
  {
  }

  // ---------------------------------------------------------------------------
  // The zig-zag step undoes the format's zig-zag encoding

  /** The zig-zag encoding of a signed value: `v shl 1`, inverted when `v` is negative. */
  function ZigZagEncode(v: Word): Word {
    var shifted: Word := if 2 * v < 0x1_0000_0000 then 2 * v else 2 * v - 0x1_0000_0000;
    if v >= 0x8000_0000 then Inv(shifted) else shifted
  }

  /**
   * A value in the range -2^30 .. 2^30-1. Kotlin's arithmetic `shr` undoes
   * the zig-zag encoding only on these; coordinates and their differences
   * (at most 36000000 in 1e-5 degree) are far inside it.
   */
  predicate Fits31(v: Word) {
    v < 0x4000_0000 || v >= 0xC000_0000
  }

  lemma ZigZagRoundTrip(v: Word)
    requires Fits31(v)
    ensures ZigZag(ZigZagEncode(v)) == v
  {
    if v < 0x4000_0000 {
      assert ZigZagEncode(v) == 2 * v;
      assert (2 * v) % 2 == 0 && (2 * v) / 2 == v;
    } else {
      var r := 0x1_FFFF_FFFF - 2 * v;
      assert ZigZagEncode(v) == r;
      assert r % 2 == 1 && r / 2 == 0xFFFF_FFFF - v;
    }
  }

  /** The word of a signed value: its 32-bit two's-complement pattern. */
  function Wrap(v: int): (w: Word)
    ensures -0x8000_0000 <= v < 0x8000_0000 ==> Value(w) == v
  {
    v % 0x1_0000_0000
  }

  /**
   * The signed delta a zig-zag encoded value decodes to is the value itself,
   * for every delta in -2^30 .. 2^30-1.
   */
  lemma ZigZagSigned(d: int)
    requires -0x4000_0000 <= d < 0x4000_0000
    ensures Value(ZigZag(ZigZagEncode(Wrap(d)))) == d
  {
    ZigZagRoundTrip(Wrap(d));
  }

  /**
   * The coordinate the decoder converts to degrees, `lat.toDouble()`, is the
   * plain sum of the signed values added, as long as that sum fits an `Int`.
   */
  lemma AddIsSignedSum(a: Word, b: Word)
    requires -0x8000_0000 <= Value(a) + Value(b) < 0x8000_0000
    ensures Value(Add(a, b)) == Value(a) + Value(b)
  {
    assert (Value(a) + Value(b)) % 0x1_0000_0000 == Add(a, b);
  }

  /** Outside that range the arithmetic `shr` turns 2^30 into -2^30. */
  lemma ZigZagOutOfRange()
    ensures ZigZag(ZigZagEncode(0x4000_0000)) == 0xC000_0000
  {
  }

  // ---------------------------------------------------------------------------
  // Arithmetic

  lemma {:induction false} Pow2Add(a: nat, b: nat)
    ensures Pow2(a + b) == Pow2(a) * Pow2(b)
    decreases a
  {
    if a > 0 {
      Pow2Add(a - 1, b);
    }
  }
}
