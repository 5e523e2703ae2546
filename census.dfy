/** What the selection worker (frontend/src/workers/selectionWorker.ts)
    computes, as functions: the opaque pixels of a rectangle in row-major
    order, the per-colour tally of `stats`, its stable sort by descending
    count, and the per-colour coordinate lists of `buildIndex`.  The methods
    of SelectionWorker.Worker are proved equal to these. */
module Census {
  import opened Wrappers
  import opened Js
  import Color

  predicate IsUpperHexDigit(c: char) {
    '0' <= c <= '9' || 'A' <= c <= 'F'
  }

  /** The upper-case form of a lower-case digit is a digit of the same value. */
  lemma UpperOfLowerDigit(d: nat)
    requires d < 16
    ensures IsUpperHexDigit(UpperChar(LowerDigit(d))) && DigitValue(UpperChar(LowerDigit(d))) == d
  {
  }

  /** The worker's toHex: "#" and six upper-case digits, two per channel,
      high digit first. */
  function ToHex(r: byte, g: byte, b: byte): (s: string)
    ensures |s| == 7 && s[0] == '#'
    ensures forall i :: 1 <= i < 7 ==> IsUpperHexDigit(s[i]) && IsHexDigit(s[i])
    ensures PairValue(s, 1) == r && PairValue(s, 3) == g && PairValue(s, 5) == b
  {
    UpperHexOfBytes(r, g, b);
    ToUpperAscii(Color.ToHex([r, g, b]))
  }

  function UpperDigit(d: nat): (c: char)
    requires d < 16
    ensures IsUpperHexDigit(c) && IsHexDigit(c) && DigitValue(c) == d
  {
    UpperOfLowerDigit(d);
    UpperChar(LowerDigit(d))
  }

  /** What toHex and toUpperCase together write, character by character. */
  lemma UpperHexOfBytes(r: byte, g: byte, b: byte)
    ensures ToUpperAscii(Color.ToHex([r, g, b]))
         == ['#', UpperDigit(r / 16), UpperDigit(r % 16), UpperDigit(g / 16), UpperDigit(g % 16),
             UpperDigit(b / 16), UpperDigit(b % 16)]
  {
    var lower := Color.ToHex([r, g, b]);
    Color.ToHexOfBytes([r, g, b]);
    var u := ToUpperAscii(lower);
    assert u[0] == '#';
    assert u[1] == UpperDigit(r / 16) && u[2] == UpperDigit(r % 16);
    assert u[3] == UpperDigit(g / 16) && u[4] == UpperDigit(g % 16);
    assert u[5] == UpperDigit(b / 16) && u[6] == UpperDigit(b % 16);
  }

  /** Different colours get different keys. */
  lemma ToHexInjective(r: byte, g: byte, b: byte, r': byte, g': byte, b': byte)
    requires ToHex(r, g, b) == ToHex(r', g', b')
    ensures r == r' && g == g' && b == b'
  {
    var s, s' := ToHex(r, g, b), ToHex(r', g', b');
    assert PairValue(s, 1) == PairValue(s', 1);
    assert PairValue(s, 3) == PairValue(s', 3);
    assert PairValue(s, 5) == PairValue(s', 5);
  }

  /** The `sx, sy, w, h` of a stats or buildIndex message. */
  datatype Rect = Rect(sx: int, sy: int, w: int, h: int)

  /** Where pixel (x, y) starts in a row-major RGBA buffer `width` pixels
      wide. */
  function PixelOffset(width: int, x: int, y: int): int {
    (y * width + x) * 4
  }

  /** The four bytes of a pixel of a `width` by `height` image lie in its
      buffer. */
  lemma PixelOffsetInside(width: int, height: int, x: int, y: int)
    requires 0 <= x < width && 0 <= y < height
    ensures 0 <= PixelOffset(width, x, y) && PixelOffset(width, x, y) + 3 < 4 * width * height
  {
    assert y * width + x < (y + 1) * width;
    assert (y + 1) * width <= height * width;
  }

  /** `rowStart + xx * 4` with `rowStart = ((sy + yy) * width + sx) * 4`: the
      offset of the pixel at (sx + xx, sy + yy). */
  function PixelIndex(width: int, r: Rect, xx: int, yy: int): int {
    PixelOffset(width, r.sx + xx, r.sy + yy)
  }

  /** The red, green and blue bytes of a pixel. */
  datatype Rgb = Rgb(r: byte, g: byte, b: byte)

  /** Something found at absolute coordinates (x, y): a pixel's colour, or
      the key it is counted under. */
  datatype Spot<K> = Spot(key: K, x: int, y: int)

  /** `data[i]` where it is defined; outside the buffer JavaScript reads
      `undefined`, which only Opaque and Readable look at. */
  function Byte(data: seq<byte>, i: int): byte {
    if 0 <= i < |data| then data[i] else 0
  }

  /** The pixel at (xx, yy) relative to the rectangle. */
  function PixelAt(data: seq<byte>, width: int, r: Rect, xx: int, yy: int): Spot<Rgb> {
    var idx := PixelIndex(width, r, xx, yy);
    Spot(Rgb(Byte(data, idx), Byte(data, idx + 1), Byte(data, idx + 2)), r.sx + xx, r.sy + yy)
  }

  /** `a === 0` fails: the alpha byte is not 0, or it is `undefined`. */
  predicate Opaque(data: seq<byte>, width: int, r: Rect, xx: int, yy: int) {
    var a := PixelIndex(width, r, xx, yy) + 3;
    !(0 <= a < |data|) || data[a] != 0
  }

  /** The three colour bytes are defined, so toHex does not throw. */
  predicate Readable(data: seq<byte>, width: int, r: Rect, xx: int, yy: int) {
    var idx := PixelIndex(width, r, xx, yy);
    0 <= idx && idx + 2 < |data|
  }

  /** No pixel of the rectangle that passes the alpha test has an undefined
      colour byte: otherwise `undefined.toString(16)` throws. */
  predicate Faultless(data: seq<byte>, width: int, r: Rect) {
    forall yy, xx :: 0 <= yy < r.h && 0 <= xx < r.w && Opaque(data, width, r, xx, yy) ==>
      Readable(data, width, r, xx, yy)
  }

  /** The pixel at (xx, yy), or nothing when its alpha is 0. */
  function HitAt(data: seq<byte>, width: int, r: Rect, xx: int, yy: int): seq<Spot<Rgb>> {
    if Opaque(data, width, r, xx, yy) then [PixelAt(data, width, r, xx, yy)] else []
  }

  /** The counted pixels of row yy among its first n columns. */
  function RowHits(data: seq<byte>, width: int, r: Rect, yy: int, n: int): seq<Spot<Rgb>>
    decreases n
  {
    if n <= 0 then [] else RowHits(data, width, r, yy, n - 1) + HitAt(data, width, r, n - 1, yy)
  }

  /** The counted pixels of the first `rows` rows, row after row. */
  function Hits(data: seq<byte>, width: int, r: Rect, rows: int): seq<Spot<Rgb>>
    decreases rows
  {
    if rows <= 0 then [] else Hits(data, width, r, rows - 1) + RowHits(data, width, r, rows - 1, r.w)
  }

  /** The counted pixels of the whole rectangle. */
  function Selection(data: seq<byte>, width: int, r: Rect): seq<Spot<Rgb>> {
    Hits(data, width, r, r.h)
  }

  /** A spot is an opaque pixel of the rectangle, with that pixel's colour. */
  predicate Covers(data: seq<byte>, width: int, r: Rect, t: Spot<Rgb>) {
    var xx, yy := t.x - r.sx, t.y - r.sy;
    0 <= xx < r.w && 0 <= yy < r.h && Opaque(data, width, r, xx, yy) && t == PixelAt(data, width, r, xx, yy)
  }

  /** Row-major order: by row, then by column. */
  predicate Before<K, L>(a: Spot<K>, b: Spot<L>) {
    a.y < b.y || (a.y == b.y && a.x < b.x)
  }

  predicate RowMajor<K>(s: seq<Spot<K>>) {
    forall i, j :: 0 <= i < j < |s| ==> Before(s[i], s[j])
  }

  lemma {:induction false} RowHitsSound(data: seq<byte>, width: int, r: Rect, yy: int, n: int)
    requires 0 <= yy < r.h && n <= r.w
    ensures forall t :: t in RowHits(data, width, r, yy, n) ==> Covers(data, width, r, t)
    decreases n
  {
    if n > 0 {
      RowHitsSound(data, width, r, yy, n - 1);
    }
  }

  lemma {:induction false} RowHitsOrdered(data: seq<byte>, width: int, r: Rect, yy: int, n: int)
    ensures RowMajor(RowHits(data, width, r, yy, n))
    decreases n
  {
    if n > 0 {
      var p, h := RowHits(data, width, r, yy, n - 1), HitAt(data, width, r, n - 1, yy);
      RowHitsOrdered(data, width, r, yy, n - 1);
      RowHitsInRow(data, width, r, yy, n - 1);
      RowHitsLeftOf(data, width, r, yy, n - 1);
      AppendInRow(p, h, r.sy + yy, r.sx + (n - 1));
    }
  }

  lemma {:induction false} RowHitsComplete(data: seq<byte>, width: int, r: Rect, yy: int, n: int)
    requires 0 <= yy < r.h && n <= r.w
    ensures forall xx :: 0 <= xx < n && Opaque(data, width, r, xx, yy) ==>
              PixelAt(data, width, r, xx, yy) in RowHits(data, width, r, yy, n)
    decreases n
  {
    if n > 0 {
      RowHitsComplete(data, width, r, yy, n - 1);
    }
  }

  /** Every counted pixel is an opaque pixel of the rectangle. */
  lemma {:induction false} HitsSound(data: seq<byte>, width: int, r: Rect, rows: int)
    requires rows <= r.h
    ensures forall t :: t in Hits(data, width, r, rows) ==> Covers(data, width, r, t)
    decreases rows
  {
    if rows > 0 {
      HitsSound(data, width, r, rows - 1);
      RowHitsSound(data, width, r, rows - 1, r.w);
    }
  }

  lemma {:induction false} RowHitsInRow(data: seq<byte>, width: int, r: Rect, yy: int, n: int)
    ensures InRow(RowHits(data, width, r, yy, n), r.sy + yy)
    decreases n
  {
    if n > 0 {
      var p, h := RowHits(data, width, r, yy, n - 1), HitAt(data, width, r, n - 1, yy);
      RowHitsInRow(data, width, r, yy, n - 1);
      ConcatInRow(p, h, r.sy + yy);
    }
  }

  lemma {:induction false} RowHitsLeftOf(data: seq<byte>, width: int, r: Rect, yy: int, n: int)
    ensures LeftOf(RowHits(data, width, r, yy, n), r.sx + n)
    decreases n
  {
    if n > 0 {
      var p, h := RowHits(data, width, r, yy, n - 1), HitAt(data, width, r, n - 1, yy);
      RowHitsLeftOf(data, width, r, yy, n - 1);
      ConcatLeftOf(p, h, r.sx + (n - 1), r.sx + n);
    }
  }

  lemma {:induction false} HitsAbove(data: seq<byte>, width: int, r: Rect, rows: int)
    ensures Above(Hits(data, width, r, rows), r.sy + rows)
    decreases rows
  {
    if rows > 0 {
      var p, q := Hits(data, width, r, rows - 1), RowHits(data, width, r, rows - 1, r.w);
      HitsAbove(data, width, r, rows - 1);
      RowHitsInRow(data, width, r, rows - 1, r.w);
      ConcatAbove(p, q, r.sy + (rows - 1));
    }
  }

  /** The counted pixels come in row-major order, so none is counted twice. */
  lemma {:induction false} HitsOrdered(data: seq<byte>, width: int, r: Rect, rows: int)
    ensures RowMajor(Hits(data, width, r, rows))
    decreases rows
  {
    if rows > 0 {
      var p, q := Hits(data, width, r, rows - 1), RowHits(data, width, r, rows - 1, r.w);
      assert Hits(data, width, r, rows) == p + q;
      HitsOrdered(data, width, r, rows - 1);
      HitsAbove(data, width, r, rows - 1);
      RowHitsOrdered(data, width, r, rows - 1, r.w);
      RowHitsInRow(data, width, r, rows - 1, r.w);
      AppendRows(p, q, r.sy + (rows - 1));
    }
  }

  predicate InRow<K>(s: seq<Spot<K>>, y: int) {
    forall i :: 0 <= i < |s| ==> s[i].y == y
  }

  predicate LeftOf<K>(s: seq<Spot<K>>, x: int) {
    forall i :: 0 <= i < |s| ==> s[i].x < x
  }

  predicate Above<K>(s: seq<Spot<K>>, y: int) {
    forall i :: 0 <= i < |s| ==> s[i].y < y
  }

  lemma ConcatInRow<K>(p: seq<Spot<K>>, q: seq<Spot<K>>, y: int)
    requires InRow(p, y) && InRow(q, y)
    ensures InRow(p + q, y)
  {
  }

  /** Everything left of x, then at most column x, lies left of x'. */
  lemma ConcatLeftOf<K>(p: seq<Spot<K>>, q: seq<Spot<K>>, x: int, x': int)
    requires x < x' && LeftOf(p, x) && forall i :: 0 <= i < |q| ==> q[i].x == x
    ensures LeftOf(p + q, x')
  {
  }

  /** Rows above y, then row y, lie above y + 1. */
  lemma ConcatAbove<K>(p: seq<Spot<K>>, q: seq<Spot<K>>, y: int)
    requires Above(p, y) && InRow(q, y)
    ensures Above(p + q, y + 1)
  {
  }

  /** A row, then one more spot of the same row further right, stays ordered. */
  lemma AppendInRow<K>(p: seq<Spot<K>>, h: seq<Spot<K>>, y: int, x: int)
    requires RowMajor(p) && InRow(p, y) && LeftOf(p, x)
    requires |h| <= 1 && forall i :: 0 <= i < |h| ==> h[i].y == y && h[i].x == x
    ensures RowMajor(p + h)
  {
  }

  /** Rows above y, then row y, stay in row-major order. */
  lemma AppendRows<K>(p: seq<Spot<K>>, q: seq<Spot<K>>, y: int)
    requires RowMajor(p) && RowMajor(q) && Above(p, y) && InRow(q, y)
    ensures RowMajor(p + q)
  {
    var s := p + q;
    forall i, j | 0 <= i < j < |s| ensures Before(s[i], s[j]) {
      if i >= |p| {
        assert s[i] == q[i - |p|] && s[j] == q[j - |p|];
      } else if j >= |p| {
        assert s[i] == p[i] && s[j] == q[j - |p|];
      } else {
        assert s[i] == p[i] && s[j] == p[j];
      }
    }
  }

  /** Every opaque pixel of the rectangle is counted. */
  lemma {:induction false} HitsComplete(data: seq<byte>, width: int, r: Rect, rows: int)
    requires rows <= r.h
    ensures forall yy, xx :: 0 <= yy < rows && 0 <= xx < r.w && Opaque(data, width, r, xx, yy) ==>
              PixelAt(data, width, r, xx, yy) in Hits(data, width, r, rows)
    decreases rows
  {
    if rows > 0 {
      HitsComplete(data, width, r, rows - 1);
      RowHitsComplete(data, width, r, rows - 1, r.w);
    }
  }
  // The tally of `stats`: a Map from key to count, filled in visiting order.

  /** A Map of counts: its keys in insertion order, and the count of each. */
  datatype Tally<K(==)> = Tally(keys: seq<K>, counts: map<K, nat>)

  /** `map.set(k, (map.get(k) || 0) + 1)`: a new key goes last, an
      existing key keeps its place. */
  function Add<K(==)>(t: Tally<K>, k: K): Tally<K> {
    if k in t.counts then Tally(t.keys, t.counts[k := t.counts[k] + 1])
    else Tally(t.keys + [k], t.counts[k := 1])
  }

  /** Add counts one more `k`, puts a new key last and leaves every other
      key and count alone. */
  lemma AddFacts<K>(t: Tally<K>, k: K)
    ensures var u := Add(t, k);
            u.counts.Keys == t.counts.Keys + {k} &&
            u.counts[k] == (if k in t.counts then t.counts[k] else 0) + 1 &&
            (forall j :: j in t.counts && j != k ==> u.counts[j] == t.counts[j]) &&
            u.keys == if k in t.counts then t.keys else t.keys + [k]
  {
  }

  /** The tally after visiting the spots of `s` in order. */
  function TallyOf<K(==)>(s: seq<Spot<K>>): Tally<K> {
    if s == [] then Tally([], map[]) else Add(TallyOf(s[..|s| - 1]), s[|s| - 1].key)
  }

  /** How many spots of `s` carry key `k`. */
  function Count<K(==)>(s: seq<Spot<K>>, k: K): nat {
    if s == [] then 0 else Count(s[..|s| - 1], k) + (if s[|s| - 1].key == k then 1 else 0)
  }

  /** Where key `k` first occurs in `s`, or |s| when it does not. */
  function FirstIndex<K(==)>(s: seq<Spot<K>>, k: K): (i: nat)
    ensures i <= |s| && (i < |s| ==> s[i].key == k)
    ensures forall j :: 0 <= j < i ==> s[j].key != k
    ensures i < |s| <==> Count(s, k) > 0
  {
    if s == [] then 0
    else
      var p := s[..|s| - 1];
      var f := FirstIndex(p, k);
      assert forall j :: 0 <= j < |p| ==> s[j] == p[j];
      if f < |p| then f else if s[|s| - 1].key == k then |p| else |s|
  }

  predicate Distinct<K(==)>(ks: seq<K>) {
    forall i, j :: 0 <= i < j < |ks| ==> ks[i] != ks[j]
  }

  /** The keys of the tally are distinct and are exactly the keys that occur. */
  lemma {:induction false} TallyKeys<K>(s: seq<Spot<K>>)
    ensures var t := TallyOf(s);
            Distinct(t.keys) && (forall k :: k in t.counts <==> k in t.keys) &&
            (forall k :: k in t.counts <==> Count(s, k) > 0)
  {
    if s != [] {
      var p := s[..|s| - 1];
      TallyKeys(p);
    }
  }

  /** Each key's count is the number of spots that carry it. */
  lemma {:induction false} TallyCounts<K>(s: seq<Spot<K>>)
    ensures var t := TallyOf(s);
            forall k :: k in t.counts ==> t.counts[k] == Count(s, k)
  {
    if s != [] {
      var p := s[..|s| - 1];
      TallyCounts(p);
      TallyKeys(p);
    }
  }

  /** The keys are in the order of their first occurrence. */
  lemma {:induction false} TallyOrder<K>(s: seq<Spot<K>>)
    ensures var t := TallyOf(s);
            forall i, j :: 0 <= i < j < |t.keys| ==> FirstIndex(s, t.keys[i]) < FirstIndex(s, t.keys[j])
  {
    if s != [] {
      var p := s[..|s| - 1];
      TallyOrder(p);
      TallyKeys(p);
      var t, t' := TallyOf(p), TallyOf(s);
      forall i | 0 <= i < |t.keys| ensures FirstIndex(s, t.keys[i]) == FirstIndex(p, t.keys[i]) < |p| {
        var k := t.keys[i];
        assert k in t.keys;
        assert Count(p, k) > 0;
        assert FirstIndex(p, k) < |p|;
      }
      var u := s[|s| - 1].key;
      if u !in t.counts {
        assert FirstIndex(s, u) == |p|;
        assert t'.keys == t.keys + [u];
      }
    }
  }

  /** One `{ hex, count }` of the stats reply. */
  datatype ColorCount<K> = ColorCount(hex: K, count: nat)

  /** `Array.from(map.entries()).map(([hex, count]) => ({ hex, count }))`. */
  function Entries<K(==)>(t: Tally<K>): (es: seq<ColorCount<K>>)
    requires forall k :: k in t.keys ==> k in t.counts
    ensures |es| == |t.keys|
    ensures forall i :: 0 <= i < |es| ==> es[i] == ColorCount(t.keys[i], t.counts[t.keys[i]])
  {
    seq(|t.keys|, i requires 0 <= i < |t.keys| => ColorCount(t.keys[i], t.counts[t.keys[i]]))
  }

  /** The sum of the counts. */
  function Total<K>(es: seq<ColorCount<K>>): nat {
    if es == [] then 0 else es[0].count + Total(es[1..])
  }

  lemma {:induction false} TotalAppend<K>(es: seq<ColorCount<K>>, e: ColorCount<K>)
    ensures Total(es + [e]) == Total(es) + e.count
  {
    if es != [] {
      assert (es + [e])[1..] == es[1..] + [e];
      TotalAppend(es[1..], e);
    }
  }

  lemma {:induction false} TotalUpdate<K>(es: seq<ColorCount<K>>, m: nat, e: ColorCount<K>)
    requires m < |es|
    ensures Total(es[m := e]) == Total(es) - es[m].count + e.count
  {
    if m > 0 {
      assert es[m := e][1..] == es[1..][m - 1 := e];
      TotalUpdate(es[1..], m - 1, e);
    }
  }

  /** The counts add up to the number of spots. */
  lemma {:induction false} TallyTotal<K>(s: seq<Spot<K>>)
    ensures var t := TallyOf(s); (forall k :: k in t.keys ==> k in t.counts) && Total(Entries(t)) == |s|
  {
    TallyKeys(s);
    if s != [] {
      var p := s[..|s| - 1];
      var u := s[|s| - 1].key;
      TallyTotal(p);
      TallyKeys(p);
      var t := TallyOf(p);
      assert TallyOf(s) == Add(t, u);
      if u in t.counts {
        var m :| 0 <= m < |t.keys| && t.keys[m] == u;
        EntriesOfAdd(t, u, m);
        TotalUpdate(Entries(t), m, ColorCount(u, t.counts[u] + 1));
      } else {
        EntriesOfAdd(t, u, 0);
        TotalAppend(Entries(t), ColorCount(u, 1));
      }
    }
  }

  /** Adding an existing key bumps its entry; a new key adds an entry of 1. */
  lemma EntriesOfAdd<K>(t: Tally<K>, u: K, m: nat)
    requires Distinct(t.keys) && forall k :: k in t.counts <==> k in t.keys
    requires u in t.counts ==> m < |t.keys| && t.keys[m] == u
    ensures var t' := Add(t, u);
            (forall k :: k in t'.keys ==> k in t'.counts) &&
            Entries(t') == if u in t.counts then Entries(t)[m := ColorCount(u, t.counts[u] + 1)]
                           else Entries(t) + [ColorCount(u, 1)]
  {
    var t' := Add(t, u);
    if u in t.counts {
      forall i | 0 <= i < |t.keys| ensures i != m ==> t.keys[i] != u {
      }
    } else {
      assert forall i :: 0 <= i < |t.keys| ==> t.keys[i] in t.counts;
    }
  }

  // `arr.sort((a, b) => b.count - a.count)`: a stable sort, most frequent first.

  /** Puts x after every entry whose count is at least x's. */
  function Insert<K>(s: seq<ColorCount<K>>, x: ColorCount<K>): seq<ColorCount<K>> {
    if s == [] then [x]
    else if s[0].count >= x.count then [s[0]] + Insert(s[1..], x)
    else [x] + s
  }

  /** Insertion sort: each entry in turn goes behind the ones at least as
      frequent, so equal counts keep their order. */
  function SortByCount<K>(s: seq<ColorCount<K>>): seq<ColorCount<K>> {
    if s == [] then [] else Insert(SortByCount(s[..|s| - 1]), s[|s| - 1])
  }

  predicate SortedDesc<K>(s: seq<ColorCount<K>>) {
    forall i, j :: 0 <= i < j < |s| ==> s[i].count >= s[j].count
  }

  ghost predicate DistinctHexes<K>(s: seq<ColorCount<K>>) {
    forall i, j :: 0 <= i < j < |s| ==> s[i].hex != s[j].hex
  }

  /** Equal counts appear in increasing rank. */
  predicate TiesRanked<K>(s: seq<ColorCount<K>>, rank: K -> int) {
    forall i, j :: 0 <= i < j < |s| && s[i].count == s[j].count ==> rank(s[i].hex) < rank(s[j].hex)
  }

  predicate Ranked<K>(s: seq<ColorCount<K>>, rank: K -> int) {
    forall i, j :: 0 <= i < j < |s| ==> rank(s[i].hex) < rank(s[j].hex)
  }

  lemma {:induction false} InsertPerm<K>(s: seq<ColorCount<K>>, x: ColorCount<K>)
    ensures multiset(Insert(s, x)) == multiset(s) + multiset{x}
  {
    if s != [] && s[0].count >= x.count {
      InsertPerm(s[1..], x);
      assert s == [s[0]] + s[1..];
    }
  }

  lemma {:induction false} InsertSorted<K>(s: seq<ColorCount<K>>, x: ColorCount<K>)
    requires SortedDesc(s)
    ensures SortedDesc(Insert(s, x))
  {
    if s != [] && s[0].count >= x.count {
      InsertSorted(s[1..], x);
      InsertPerm(s[1..], x);
      var r := Insert(s[1..], x);
      forall j | 0 <= j < |r| ensures s[0].count >= r[j].count {
        assert r[j] in multiset(r);
        assert r[j] == x || r[j] in s[1..];
      }
    }
  }

  lemma {:induction false} InsertTies<K>(s: seq<ColorCount<K>>, x: ColorCount<K>, rank: K -> int)
    requires SortedDesc(s) && TiesRanked(s, rank)
    requires forall i :: 0 <= i < |s| ==> rank(s[i].hex) < rank(x.hex)
    ensures TiesRanked(Insert(s, x), rank)
  {
    if s != [] && s[0].count >= x.count {
      InsertTies(s[1..], x, rank);
      InsertPerm(s[1..], x);
      var r := Insert(s[1..], x);
      forall j | 0 <= j < |r| && s[0].count == r[j].count ensures rank(s[0].hex) < rank(r[j].hex) {
        assert r[j] in multiset(r);
        if r[j] != x {
          assert r[j] in s[1..];
        }
      }
    }
  }

  lemma {:induction false} InsertDistinct<K>(s: seq<ColorCount<K>>, x: ColorCount<K>)
    requires DistinctHexes(s) && forall i :: 0 <= i < |s| ==> s[i].hex != x.hex
    ensures DistinctHexes(Insert(s, x))
  {
    if s != [] && s[0].count >= x.count {
      InsertDistinct(s[1..], x);
      InsertPerm(s[1..], x);
      var r := Insert(s[1..], x);
      forall j | 0 <= j < |r| ensures s[0].hex != r[j].hex {
        assert r[j] in multiset(r);
        if r[j] != x {
          assert r[j] in s[1..];
        }
      }
    }
  }

  /** The sorted entries are a permutation of the input, most frequent first. */
  lemma {:induction false} SortFacts<K>(s: seq<ColorCount<K>>)
    ensures SortedDesc(SortByCount(s)) && multiset(SortByCount(s)) == multiset(s)
  {
    if s != [] {
      var p := s[..|s| - 1];
      SortFacts(p);
      InsertSorted(SortByCount(p), s[|s| - 1]);
      InsertPerm(SortByCount(p), s[|s| - 1]);
      assert s == p + [s[|s| - 1]];
    }
  }

  /** Stability: entries ranked in input order keep that order among equal
      counts. */
  lemma {:induction false} SortStable<K>(s: seq<ColorCount<K>>, rank: K -> int)
    requires Ranked(s, rank)
    ensures TiesRanked(SortByCount(s), rank) && DistinctHexes(SortByCount(s))
  {
    if s != [] {
      var p, x := s[..|s| - 1], s[|s| - 1];
      SortStable(p, rank);
      SortFacts(p);
      var q := SortByCount(p);
      forall i | 0 <= i < |q| ensures rank(q[i].hex) < rank(x.hex) {
        assert q[i] in multiset(p);
      }
      InsertTies(q, x, rank);
      InsertDistinct(q, x);
    }
  }

  /** The colours of a stats reply for the spots `s`. */
  function StatsOf<K(==)>(s: seq<Spot<K>>): seq<ColorCount<K>> {
    SortByCount(EntriesOf(s))
  }

  /** The entries of the tally of `s`, in insertion order. */
  function EntriesOf<K(==)>(s: seq<Spot<K>>): (es: seq<ColorCount<K>>)
    ensures |es| == |TallyOf(s).keys|
    ensures forall i :: 0 <= i < |es| ==> es[i].hex == TallyOf(s).keys[i] && es[i].count == Count(s, es[i].hex)
  {
    TallyKeys(s);
    TallyCounts(s);
    Entries(TallyOf(s))
  }

  /** The entries carry each occurring key once, with its count, in the
      order of first occurrence, and add up to the number of spots. */
  lemma EntriesFacts<K>(s: seq<Spot<K>>)
    ensures var es := EntriesOf(s);
            Ranked(es, k => FirstIndex(s, k)) && Total(es) == |s| &&
            (forall i :: 0 <= i < |es| ==> Count(s, es[i].hex) > 0) &&
            (forall k :: Count(s, k) > 0 ==> exists i :: 0 <= i < |es| && es[i].hex == k)
  {
    TallyKeys(s);
    TallyOrder(s);
    TallyTotal(s);
    var t := TallyOf(s);
    var es := EntriesOf(s);
    forall i | 0 <= i < |es| ensures Count(s, es[i].hex) > 0 {
      assert es[i].hex == t.keys[i] && t.keys[i] in t.keys;
      assert t.keys[i] in t.counts;
      assert Count(s, t.keys[i]) > 0;
    }
    forall k | Count(s, k) > 0 ensures exists i :: 0 <= i < |es| && es[i].hex == k {
      assert k in t.counts;
      assert k in t.keys;
      var i :| 0 <= i < |t.keys| && t.keys[i] == k;
      assert es[i].hex == k;
    }
  }

  /** What stats promises: one entry per key that occurs, with distinct
      keys, each with the number of spots that carry it; the counts add up
      to the number of spots; most frequent first, and equal counts in the
      order in which their keys first occur. */
  lemma StatsFacts<K>(s: seq<Spot<K>>)
    ensures var out := StatsOf(s);
            SortedDesc(out) && DistinctHexes(out) && Total(out) == |s| &&
            (forall i :: 0 <= i < |out| ==> out[i].count == Count(s, out[i].hex) > 0) &&
            (forall k :: Count(s, k) > 0 ==> exists i :: 0 <= i < |out| && out[i].hex == k) &&
            (forall i, j :: 0 <= i < j < |out| && out[i].count == out[j].count ==>
               FirstIndex(s, out[i].hex) < FirstIndex(s, out[j].hex))
  {
    var es := EntriesOf(s);
    var out := StatsOf(s);
    EntriesFacts(s);
    SortFacts(es);
    SortStable(es, k => FirstIndex(s, k));
    TotalSort(es);
    ElementsOfSort(s, es, out);
  }

  lemma ElementsOfSort<K>(s: seq<Spot<K>>, es: seq<ColorCount<K>>, out: seq<ColorCount<K>>)
    requires multiset(out) == multiset(es)
    requires forall i :: 0 <= i < |es| ==> es[i].count == Count(s, es[i].hex) > 0
    requires forall k :: Count(s, k) > 0 ==> exists i :: 0 <= i < |es| && es[i].hex == k
    ensures forall i :: 0 <= i < |out| ==> out[i].count == Count(s, out[i].hex) > 0
    ensures forall k :: Count(s, k) > 0 ==> exists i :: 0 <= i < |out| && out[i].hex == k
  {
    forall i | 0 <= i < |out| ensures out[i].count == Count(s, out[i].hex) > 0 {
      assert out[i] in multiset(es);
    }
    forall k | Count(s, k) > 0 ensures exists i :: 0 <= i < |out| && out[i].hex == k {
      var m :| 0 <= m < |es| && es[m].hex == k;
      assert es[m] in multiset(out);
      var i :| 0 <= i < |out| && out[i] == es[m];
    }
  }

  lemma {:induction false} TotalInsert<K>(s: seq<ColorCount<K>>, x: ColorCount<K>)
    ensures Total(Insert(s, x)) == Total(s) + x.count
  {
    if s != [] && s[0].count >= x.count {
      TotalInsert(s[1..], x);
    }
  }

  /** Sorting keeps the total. */
  lemma {:induction false} TotalSort<K>(s: seq<ColorCount<K>>)
    ensures Total(SortByCount(s)) == Total(s)
  {
    if s != [] {
      var p := s[..|s| - 1];
      TotalSort(p);
      TotalInsert(SortByCount(p), s[|s| - 1]);
      TotalAppend(p, s[|s| - 1]);
      assert p + [s[|s| - 1]] == s;
    }
  }

  // The index of `buildIndex`: per key, the flat list of coordinates.

  /** `x, y` of every spot in turn: `[x0, y0, x1, y1, ...]`. */
  function Flat<K>(s: seq<Spot<K>>): (f: seq<int>)
    ensures |f| == 2 * |s|
    ensures forall i :: 0 <= i < |s| ==> f[2 * i] == s[i].x && f[2 * i + 1] == s[i].y
  {
    if s == [] then []
    else
      var p := s[..|s| - 1];
      var f := Flat(p) + [s[|s| - 1].x, s[|s| - 1].y];
      assert forall i :: 0 <= i < |p| ==> s[i] == p[i];
      f
  }

  /** The spots of `s` that carry key `k`, in order. */
  function Only<K(==)>(s: seq<Spot<K>>, k: K): seq<Spot<K>> {
    if s == [] then []
    else if s[|s| - 1].key == k then Only(s[..|s| - 1], k) + [s[|s| - 1]]
    else Only(s[..|s| - 1], k)
  }

  /** `if (!indexObj[hex]) indexObj[hex] = []; indexObj[hex].push(x, y)`. */
  function Push<K(==)>(m: map<K, seq<int>>, k: K, x: int, y: int): map<K, seq<int>> {
    m[k := (if k in m then m[k] else []) + [x, y]]
  }

  /** Push appends the two coordinates to the list under `k`, starting an
      empty one for a new key, and leaves every other key alone. */
  lemma PushFacts<K>(m: map<K, seq<int>>, k: K, x: int, y: int)
    ensures var n := Push(m, k, x, y);
            n.Keys == m.Keys + {k} && |n[k]| >= 2 && n[k][|n[k]| - 2..] == [x, y] &&
            n[k][..|n[k]| - 2] == (if k in m then m[k] else []) &&
            forall j :: j in m && j != k ==> n[j] == m[j]
  {
  }

  /** The index after visiting the spots of `s` in order. */
  function IndexOf<K(==)>(s: seq<Spot<K>>): map<K, seq<int>> {
    if s == [] then map[]
    else
      var u := s[|s| - 1];
      Push(IndexOf(s[..|s| - 1]), u.key, u.x, u.y)
  }

  /** Only(s, k) holds exactly the spots of s with key k, Count(s, k) of
      them. */
  lemma {:induction false} OnlyFacts<K>(s: seq<Spot<K>>, k: K)
    ensures |Only(s, k)| == Count(s, k)
    ensures forall t :: t in Only(s, k) ==> t in s && t.key == k
    ensures forall t :: t in s && t.key == k ==> t in Only(s, k)
  {
    if s != [] {
      var p, u := s[..|s| - 1], s[|s| - 1];
      OnlyFacts(p, k);
      assert s == p + [u];
    }
  }

  /** Only keeps the order of s. */
  lemma {:induction false} OnlyOrdered<K>(s: seq<Spot<K>>, k: K)
    requires RowMajor(s)
    ensures RowMajor(Only(s, k))
  {
    if s != [] {
      var p, u := s[..|s| - 1], s[|s| - 1];
      assert RowMajor(p) by {
        assert forall i :: 0 <= i < |p| ==> p[i] == s[i];
      }
      OnlyOrdered(p, k);
      if u.key == k {
        OnlyFacts(p, k);
        var o := Only(p, k);
        forall i | 0 <= i < |o| ensures Before(o[i], u) {
          assert o[i] in o;
          assert o[i] in p;
          var j :| 0 <= j < |p| && p[j] == o[i];
          assert s[j] == p[j];
        }
        AppendLast(o, u);
      }
    }
  }

  lemma AppendLast<K>(o: seq<Spot<K>>, u: Spot<K>)
    requires RowMajor(o) && forall i :: 0 <= i < |o| ==> Before(o[i], u)
    ensures RowMajor(o + [u])
  {
    var s := o + [u];
    forall i, j | 0 <= i < j < |s| ensures Before(s[i], s[j]) {
      assert s[i] == o[i];
    }
  }

  /** The index has a list for exactly the keys that occur, and that list is
      the flat coordinates of the key's spots in visiting order. */
  lemma {:induction false} IndexFacts<K>(s: seq<Spot<K>>)
    ensures var m := IndexOf(s);
            (forall k :: k in m <==> Count(s, k) > 0) &&
            (forall k :: k in m ==> m[k] == Flat(Only(s, k)))
  {
    if s != [] {
      var p, u := s[..|s| - 1], s[|s| - 1];
      IndexFacts(p);
      var m := IndexOf(p);
      forall k | k in IndexOf(s) ensures IndexOf(s)[k] == Flat(Only(s, k)) {
        if k == u.key {
          if k !in m {
            assert Count(p, k) == 0;
            OnlyFacts(p, k);
            assert Only(p, k) == [];
          }
        }
      }
    }
  }

  /** The stats colours and the index keys are the same set, and every
      colour's list holds two numbers per counted pixel. */
  lemma StatsMatchIndex<K>(s: seq<Spot<K>>)
    ensures var out, m := StatsOf(s), IndexOf(s);
            (forall i :: 0 <= i < |out| ==> out[i].hex in m && |m[out[i].hex]| == 2 * out[i].count) &&
            (forall k :: k in m ==> exists i :: 0 <= i < |out| && out[i].hex == k)
  {
    StatsFacts(s);
    IndexFacts(s);
    var out, m := StatsOf(s), IndexOf(s);
    forall i | 0 <= i < |out| ensures out[i].hex in m && |m[out[i].hex]| == 2 * out[i].count {
      var k := out[i].hex;
      assert out[i].count == Count(s, k) > 0;
      OnlyFacts(s, k);
      assert m[k] == Flat(Only(s, k));
    }
    forall k | k in m ensures exists i :: 0 <= i < |out| && out[i].hex == k {
      assert Count(s, k) > 0;
    }
  }

  // The worker's replies, on the pixels of a message's rectangle.

  /** A counted pixel under its toHex key. */
  function KeySpot(t: Spot<Rgb>): Spot<string> {
    Spot(ToHex(t.key.r, t.key.g, t.key.b), t.x, t.y)
  }

  function Keyed(s: seq<Spot<Rgb>>): (ks: seq<Spot<string>>)
    ensures |ks| == |s| && forall i :: 0 <= i < |s| ==> ks[i] == KeySpot(s[i])
  {
    seq(|s|, i requires 0 <= i < |s| => KeySpot(s[i]))
  }

  lemma KeyedSnoc(s: seq<Spot<Rgb>>, t: Spot<Rgb>)
    ensures Keyed(s + [t]) == Keyed(s) + [KeySpot(t)]
  {
  }

  /** The `colors` of a stats reply. */
  function Stats(data: seq<byte>, width: int, r: Rect): seq<ColorCount<string>> {
    StatsOf(Keyed(Selection(data, width, r)))
  }

  /** The `index` of an indexResult reply. */
  function Index(data: seq<byte>, width: int, r: Rect): map<string, seq<int>> {
    IndexOf(Keyed(Selection(data, width, r)))
  }

  /** The keyed spots come in row-major order. */
  lemma KeyedOrdered(data: seq<byte>, width: int, r: Rect)
    ensures RowMajor(Keyed(Selection(data, width, r)))
  {
    var sel := Selection(data, width, r);
    var ks := Keyed(sel);
    HitsOrdered(data, width, r, r.h);
    forall i, j | 0 <= i < j < |ks| ensures Before(ks[i], ks[j]) {
      assert Before(sel[i], sel[j]);
    }
  }

  /** Every keyed spot is an opaque pixel of the rectangle under its own
      colour's key. */
  lemma KeyedSound(data: seq<byte>, width: int, r: Rect)
    ensures forall t :: t in Keyed(Selection(data, width, r)) ==>
              exists xx, yy :: (0 <= xx < r.w && 0 <= yy < r.h && Opaque(data, width, r, xx, yy) &&
                                t == KeySpot(PixelAt(data, width, r, xx, yy)))
  {
    var sel := Selection(data, width, r);
    var ks := Keyed(sel);
    HitsSound(data, width, r, r.h);
    forall t | t in ks ensures exists xx, yy :: (0 <= xx < r.w && 0 <= yy < r.h &&
                Opaque(data, width, r, xx, yy) && t == KeySpot(PixelAt(data, width, r, xx, yy))) {
      var i :| 0 <= i < |ks| && ks[i] == t;
      var u := sel[i];
      assert u in sel;
      CoveredPixel(data, width, r, u);
    }
  }

  lemma CoveredPixel(data: seq<byte>, width: int, r: Rect, u: Spot<Rgb>)
    requires Covers(data, width, r, u)
    ensures exists xx, yy :: (0 <= xx < r.w && 0 <= yy < r.h && Opaque(data, width, r, xx, yy) &&
                              KeySpot(u) == KeySpot(PixelAt(data, width, r, xx, yy)))
  {
    var xx, yy := u.x - r.sx, u.y - r.sy;
    assert u == PixelAt(data, width, r, xx, yy);
  }

  /** Every opaque pixel of the rectangle is among the keyed spots. */
  lemma KeyedComplete(data: seq<byte>, width: int, r: Rect)
    ensures forall yy, xx :: 0 <= yy < r.h && 0 <= xx < r.w && Opaque(data, width, r, xx, yy) ==>
              KeySpot(PixelAt(data, width, r, xx, yy)) in Keyed(Selection(data, width, r))
  {
    var sel := Selection(data, width, r);
    var ks := Keyed(sel);
    HitsComplete(data, width, r, r.h);
    forall yy, xx | 0 <= yy < r.h && 0 <= xx < r.w && Opaque(data, width, r, xx, yy)
      ensures KeySpot(PixelAt(data, width, r, xx, yy)) in ks {
      var t := PixelAt(data, width, r, xx, yy);
      assert t in sel;
      var i :| 0 <= i < |sel| && sel[i] == t;
      assert ks[i] == KeySpot(t);
    }
  }

  // The replies, with the worker's state as parameters.

  /** The TypeError that `undefined.toString(16)` raises inside toHex. */
  datatype Thrown = TypeError

  /** The pixels of rows 0..rows-1 that pass the alpha test are readable. */
  predicate RowsFaultless(data: seq<byte>, width: int, r: Rect, rows: int) {
    forall yy, xx :: 0 <= yy < rows && 0 <= xx < r.w && Opaque(data, width, r, xx, yy) ==>
      Readable(data, width, r, xx, yy)
  }

  /** The same for the first n pixels of row yy. */
  predicate RowFaultless(data: seq<byte>, width: int, r: Rect, yy: int, n: int) {
    forall xx :: 0 <= xx < n && Opaque(data, width, r, xx, yy) ==> Readable(data, width, r, xx, yy)
  }

  /** The stats branch: no image gives no colours; a pixel that passes the
      alpha test with an undefined colour byte throws; otherwise the
      colours of the rectangle. */
  function StatsReply(data: Option<seq<byte>>, width: int, r: Rect): Result<seq<ColorCount<string>>, Thrown> {
    if data.None? then Success([])
    else if !Faultless(data.value, width, r) then Failure(TypeError)
    else Success(Stats(data.value, width, r))
  }

  /** The buildIndex branch, with the same three outcomes. */
  function IndexReply(data: Option<seq<byte>>, width: int, r: Rect): Result<map<string, seq<int>>, Thrown> {
    if data.None? then Success(map[])
    else if !Faultless(data.value, width, r) then Failure(TypeError)
    else Success(Index(data.value, width, r))
  }

  /** A rectangle inside a `width` by `height` image whose buffer holds all
      of its pixels reads no undefined byte, so both requests succeed. */
  lemma InBoundsSucceeds(data: seq<byte>, width: int, height: int, r: Rect)
    requires 0 <= r.sx && r.sx + r.w <= width && 0 <= r.sy && r.sy + r.h <= height
    requires |data| == 4 * width * height
    ensures Faultless(data, width, r)
    ensures StatsReply(Some(data), width, r).Success? && IndexReply(Some(data), width, r).Success?
  {
    forall yy, xx | 0 <= yy < r.h && 0 <= xx < r.w && Opaque(data, width, r, xx, yy)
      ensures Readable(data, width, r, xx, yy)
    {
      PixelOffsetInside(width, height, r.sx + xx, r.sy + yy);
    }
  }

  /** stats and buildIndex on the same state and rectangle fail together;
      when they succeed, the stats colours are the index keys, and each
      colour's coordinate list has two numbers per counted pixel. */
  lemma RepliesAgree(data: Option<seq<byte>>, width: int, r: Rect)
    ensures StatsReply(data, width, r).Success? <==> IndexReply(data, width, r).Success?
    ensures StatsReply(data, width, r).Success? ==>
              var out, m := StatsReply(data, width, r).value, IndexReply(data, width, r).value;
              (forall i :: 0 <= i < |out| ==> out[i].hex in m && |m[out[i].hex]| == 2 * out[i].count) &&
              (forall k :: k in m ==> exists i :: 0 <= i < |out| && out[i].hex == k)
  {
    if data.Some? && Faultless(data.value, width, r) {
      var ks := Keyed(Selection(data.value, width, r));
      StatsMatchIndex(ks);
      assert StatsReply(data, width, r) == Success(StatsOf(ks));
      assert IndexReply(data, width, r) == Success(IndexOf(ks));
    }
  }

  /** Visiting one more spot adds its key to the tally. */
  lemma TallySnoc<K>(s: seq<Spot<K>>, t: Spot<K>)
    ensures TallyOf(s + [t]) == Add(TallyOf(s), t.key)
  {
    assert (s + [t])[..|s|] == s;
  }

  /** Visiting one more spot appends its coordinates to its key's list. */
  lemma IndexSnoc<K>(s: seq<Spot<K>>, t: Spot<K>)
    ensures IndexOf(s + [t]) == Push(IndexOf(s), t.key, t.x, t.y)
  {
    assert (s + [t])[..|s|] == s;
  }
}
