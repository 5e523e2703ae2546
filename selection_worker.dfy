/** The selection worker (frontend/src/workers/selectionWorker.ts): the
    image it was last sent, and the two scans it runs over a rectangle of
    that image.  Each scan is proved to return what Census specifies. */
module SelectionWorker {
  import opened Wrappers
  import opened Js
  import opened Census

  /** The messages the worker tells apart, with the fields each branch reads.
      A `requestId` is None when the message has none. */
  datatype Message =
    | NoType
    | InitMsg(width: int, height: int, data: Option<seq<byte>>)
    | StatsMsg(rect: Rect, requestId: Option<int>)
    | BuildIndexMsg(rect: Rect, requestId: Option<int>)
    | OtherMsg(requestId: Option<int>)

  /** What the worker posts back. */
  datatype Reply =
    | StatsResult(requestId: Option<int>, colors: seq<ColorCount<string>>)
    | IndexResult(requestId: Option<int>, index: map<string, seq<int>>)
    | ErrorReply(failedId: int)

  /** The catch block: an error reply only for a truthy requestId. */
  function Caught(requestId: Option<int>): (reply: Option<Reply>)
    ensures reply.Some? <==> requestId.Some? && requestId.value != 0
    ensures reply.Some? ==> reply.value == ErrorReply(requestId.value)
  {
    if requestId.Some? && requestId.value != 0 then Some(ErrorReply(requestId.value)) else None
  }

  /** The reply to a message other than init, on a given state. */
  function Answer(msg: Message, width: int, data: Option<seq<byte>>): Option<Reply> {
    match msg
    case StatsMsg(r, id) =>
      var res := StatsReply(data, width, r);
      if res.Success? then Some(StatsResult(id, res.value)) else Caught(id)
    case BuildIndexMsg(r, id) =>
      var res := IndexReply(data, width, r);
      if res.Success? then Some(IndexResult(id, res.value)) else Caught(id)
    case _ => None
  }

  /** A stats or buildIndex reply carries the request's own id, and an
      error reply comes only from a scan that threw. */
  lemma AnswerEchoes(msg: Message, width: int, data: Option<seq<byte>>)
    ensures var a := Answer(msg, width, data);
            (a.Some? && a.value.StatsResult? ==> msg.StatsMsg? && a.value.requestId == msg.requestId) &&
            (a.Some? && a.value.IndexResult? ==> msg.BuildIndexMsg? && a.value.requestId == msg.requestId) &&
            (a.Some? && a.value.ErrorReply? ==>
               (msg.StatsMsg? && StatsReply(data, width, msg.rect).Failure?) ||
               (msg.BuildIndexMsg? && IndexReply(data, width, msg.rect).Failure?)) &&
            (a.None? && (msg.StatsMsg? || msg.BuildIndexMsg?) ==> Caught(msg.requestId).None?)
  {
  }

  /** One pixel of the scan: an opaque, readable pixel adds its key spot to
      the visited spots. */
  lemma Visit(buf: seq<byte>, width: int, r: Rect, yy: int, xx: int, idx: int, seen: seq<Spot<string>>, after: seq<Spot<Rgb>>, hex: string)
    requires 0 <= xx && idx == PixelIndex(width, r, xx, yy)
    requires seen == Keyed(Hits(buf, width, r, yy) + RowHits(buf, width, r, yy, xx))
    requires after == Hits(buf, width, r, yy) + RowHits(buf, width, r, yy, xx + 1)
    requires !(0 <= idx + 3 < |buf| && buf[idx + 3] == 0) && 0 <= idx && idx + 2 < |buf|
    requires hex == ToHex(buf[idx], buf[idx + 1], buf[idx + 2])
    ensures seen + [Spot(hex, r.sx + xx, r.sy + yy)] == Keyed(after)
  {
    var h, q := Hits(buf, width, r, yy), RowHits(buf, width, r, yy, xx);
    var t := HitAt(buf, width, r, xx, yy);
    assert Opaque(buf, width, r, xx, yy);
    assert t == [PixelAt(buf, width, r, xx, yy)];
    StepHits(h, q, t);
    KeyedSnoc(h + q, PixelAt(buf, width, r, xx, yy));
    StepKey(buf, width, r, xx, yy);
  }

  /** A pixel whose alpha is 0 adds nothing. */
  lemma Skip(buf: seq<byte>, width: int, r: Rect, yy: int, xx: int, idx: int)
    requires 0 <= xx && idx == PixelIndex(width, r, xx, yy)
    requires 0 <= idx + 3 < |buf| && buf[idx + 3] == 0
    ensures Hits(buf, width, r, yy) + RowHits(buf, width, r, yy, xx + 1)
         == Hits(buf, width, r, yy) + RowHits(buf, width, r, yy, xx)
    ensures RowFaultless(buf, width, r, yy, xx) ==> RowFaultless(buf, width, r, yy, xx + 1)
  {
    var h, q := Hits(buf, width, r, yy), RowHits(buf, width, r, yy, xx);
    assert !Opaque(buf, width, r, xx, yy);
    assert HitAt(buf, width, r, xx, yy) == [];
    assert RowHits(buf, width, r, yy, xx + 1) == q + [];
  }

  /** `map.set(hex, (map.get(hex) || 0) + 1)` for one more opaque, readable pixel gives the tally of the
      spots visited so far. */
  lemma TallyVisit(buf: seq<byte>, width: int, r: Rect, yy: int, xx: int, idx: int, tally: Tally<string>, hex: string)
    requires 0 <= xx && idx == PixelIndex(width, r, xx, yy)
    requires !(0 <= idx + 3 < |buf| && buf[idx + 3] == 0) && 0 <= idx && idx + 2 < |buf|
    requires hex == ToHex(buf[idx], buf[idx + 1], buf[idx + 2])
    requires tally == TallyOf(Keyed(Hits(buf, width, r, yy) + RowHits(buf, width, r, yy, xx)))
    ensures Add(tally, hex)
         == TallyOf(Keyed(Hits(buf, width, r, yy) + RowHits(buf, width, r, yy, xx + 1)))
  {
    var before := Hits(buf, width, r, yy) + RowHits(buf, width, r, yy, xx);
    Visit(buf, width, r, yy, xx, idx, Keyed(before), Hits(buf, width, r, yy) + RowHits(buf, width, r, yy, xx + 1), hex);
    TallyStep(before, Hits(buf, width, r, yy) + RowHits(buf, width, r, yy, xx + 1), Spot(hex, r.sx + xx, r.sy + yy), tally);
  }

  lemma TallyStep(before: seq<Spot<Rgb>>, after: seq<Spot<Rgb>>, t: Spot<string>, tally: Tally<string>)
    requires Keyed(before) + [t] == Keyed(after) && tally == TallyOf(Keyed(before))
    ensures Add(tally, t.key) == TallyOf(Keyed(after))
  {
    TallySnoc(Keyed(before), t);
  }

  /** The same for the coordinate lists of buildIndex; (x, y) is the pixel's
      position in the image. */
  lemma IndexVisit(buf: seq<byte>, width: int, r: Rect, yy: int, xx: int, idx: int, index: map<string, seq<int>>, hex: string, x: int, y: int)
    requires 0 <= xx && idx == PixelIndex(width, r, xx, yy) && x == r.sx + xx && y == r.sy + yy
    requires !(0 <= idx + 3 < |buf| && buf[idx + 3] == 0) && 0 <= idx && idx + 2 < |buf|
    requires hex == ToHex(buf[idx], buf[idx + 1], buf[idx + 2])
    requires index == IndexOf(Keyed(Hits(buf, width, r, yy) + RowHits(buf, width, r, yy, xx)))
    ensures Push(index, hex, x, y) == IndexOf(Keyed(Hits(buf, width, r, yy) + RowHits(buf, width, r, yy, xx + 1)))
  {
    var before := Hits(buf, width, r, yy) + RowHits(buf, width, r, yy, xx);
    var after := Hits(buf, width, r, yy) + RowHits(buf, width, r, yy, xx + 1);
    Visit(buf, width, r, yy, xx, idx, Keyed(before), after, hex);
    assert Spot(hex, r.sx + xx, r.sy + yy) == Spot(hex, x, y);
    IndexStep(before, after, hex, x, y, index);
  }

  lemma IndexStep(before: seq<Spot<Rgb>>, after: seq<Spot<Rgb>>, hex: string, x: int, y: int, index: map<string, seq<int>>)
    requires Keyed(before) + [Spot(hex, x, y)] == Keyed(after) && index == IndexOf(Keyed(before))
    ensures Push(index, hex, x, y) == IndexOf(Keyed(after))
  {
    IndexSnoc(Keyed(before), Spot(hex, x, y));
  }

  /** A pixel whose alpha is 0 leaves the tally and the index as they are. */
  lemma TallySkip(buf: seq<byte>, width: int, r: Rect, yy: int, xx: int, idx: int, tally: Tally<string>)
    requires 0 <= xx && idx == PixelIndex(width, r, xx, yy)
    requires 0 <= idx + 3 < |buf| && buf[idx + 3] == 0
    requires tally == TallyOf(Keyed(Hits(buf, width, r, yy) + RowHits(buf, width, r, yy, xx)))
    ensures tally == TallyOf(Keyed(Hits(buf, width, r, yy) + RowHits(buf, width, r, yy, xx + 1)))
  {
    Skip(buf, width, r, yy, xx, idx);
  }

  lemma IndexSkip(buf: seq<byte>, width: int, r: Rect, yy: int, xx: int, idx: int, index: map<string, seq<int>>)
    requires 0 <= xx && idx == PixelIndex(width, r, xx, yy)
    requires 0 <= idx + 3 < |buf| && buf[idx + 3] == 0
    requires index == IndexOf(Keyed(Hits(buf, width, r, yy) + RowHits(buf, width, r, yy, xx)))
    ensures index == IndexOf(Keyed(Hits(buf, width, r, yy) + RowHits(buf, width, r, yy, xx + 1)))
  {
    Skip(buf, width, r, yy, xx, idx);
  }

  /** Row yy starts from the tally and the index of the rows before it. */
  lemma TallyRowStart(buf: seq<byte>, width: int, r: Rect, yy: int, tally: Tally<string>)
    requires tally == TallyOf(Keyed(Hits(buf, width, r, yy)))
    ensures tally == TallyOf(Keyed(Hits(buf, width, r, yy) + RowHits(buf, width, r, yy, 0)))
  {
    RowStart(buf, width, r, yy);
  }

  lemma IndexRowStart(buf: seq<byte>, width: int, r: Rect, yy: int, index: map<string, seq<int>>)
    requires index == IndexOf(Keyed(Hits(buf, width, r, yy)))
    ensures index == IndexOf(Keyed(Hits(buf, width, r, yy) + RowHits(buf, width, r, yy, 0)))
  {
    RowStart(buf, width, r, yy);
  }

  /** The step from column prev to column xx = prev + 1. */
  lemma TallyNext(buf: seq<byte>, width: int, r: Rect, yy: int, prev: int, xx: int, tally: Tally<string>)
    requires xx == prev + 1
    requires tally == TallyOf(Keyed(Hits(buf, width, r, yy) + RowHits(buf, width, r, yy, prev + 1)))
    requires RowFaultless(buf, width, r, yy, prev + 1)
    ensures tally == TallyOf(Keyed(Hits(buf, width, r, yy) + RowHits(buf, width, r, yy, xx)))
    ensures RowFaultless(buf, width, r, yy, xx)
  {
  }

  lemma IndexNext(buf: seq<byte>, width: int, r: Rect, yy: int, prev: int, xx: int, index: map<string, seq<int>>)
    requires xx == prev + 1
    requires index == IndexOf(Keyed(Hits(buf, width, r, yy) + RowHits(buf, width, r, yy, prev + 1)))
    requires RowFaultless(buf, width, r, yy, prev + 1)
    ensures index == IndexOf(Keyed(Hits(buf, width, r, yy) + RowHits(buf, width, r, yy, xx)))
    ensures RowFaultless(buf, width, r, yy, xx)
  {
  }

  /** Leaving the inner loop, xx is the width of the row. */
  lemma TallyRowEnd(buf: seq<byte>, width: int, r: Rect, yy: int, xx: int, tally: Tally<string>)
    requires 0 <= xx <= (if r.w < 0 then 0 else r.w) && !(xx < r.w)
    requires tally == TallyOf(Keyed(Hits(buf, width, r, yy) + RowHits(buf, width, r, yy, xx)))
    requires RowFaultless(buf, width, r, yy, xx)
    ensures tally == TallyOf(Keyed(Hits(buf, width, r, yy) + RowHits(buf, width, r, yy, if r.w < 0 then 0 else r.w)))
    ensures RowFaultless(buf, width, r, yy, if r.w < 0 then 0 else r.w)
  {
    if r.w < 0 {
      assert xx == 0;
    } else {
      assert xx == r.w;
    }
  }

  lemma IndexRowEnd(buf: seq<byte>, width: int, r: Rect, yy: int, xx: int, index: map<string, seq<int>>)
    requires 0 <= xx <= (if r.w < 0 then 0 else r.w) && !(xx < r.w)
    requires index == IndexOf(Keyed(Hits(buf, width, r, yy) + RowHits(buf, width, r, yy, xx)))
    requires RowFaultless(buf, width, r, yy, xx)
    ensures index == IndexOf(Keyed(Hits(buf, width, r, yy) + RowHits(buf, width, r, yy, if r.w < 0 then 0 else r.w)))
    ensures RowFaultless(buf, width, r, yy, if r.w < 0 then 0 else r.w)
  {
    if r.w < 0 {
      assert xx == 0;
    } else {
      assert xx == r.w;
    }
  }

  /** A finished row joins the finished rows: the step from row prev to
      row yy = prev + 1. */
  lemma TallyRowDone(buf: seq<byte>, width: int, r: Rect, prev: int, yy: int, tally: Tally<string>)
    requires 0 <= prev && yy == prev + 1 && RowsFaultless(buf, width, r, prev)
    requires tally == TallyOf(Keyed(Hits(buf, width, r, prev) + RowHits(buf, width, r, prev, if r.w < 0 then 0 else r.w)))
    requires RowFaultless(buf, width, r, prev, if r.w < 0 then 0 else r.w)
    ensures tally == TallyOf(Keyed(Hits(buf, width, r, yy))) && RowsFaultless(buf, width, r, yy)
  {
    RowDone(buf, width, r, prev, if r.w < 0 then 0 else r.w);
  }

  lemma IndexRowDone(buf: seq<byte>, width: int, r: Rect, prev: int, yy: int, index: map<string, seq<int>>)
    requires 0 <= prev && yy == prev + 1 && RowsFaultless(buf, width, r, prev)
    requires index == IndexOf(Keyed(Hits(buf, width, r, prev) + RowHits(buf, width, r, prev, if r.w < 0 then 0 else r.w)))
    requires RowFaultless(buf, width, r, prev, if r.w < 0 then 0 else r.w)
    ensures index == IndexOf(Keyed(Hits(buf, width, r, yy))) && RowsFaultless(buf, width, r, yy)
  {
    RowDone(buf, width, r, prev, if r.w < 0 then 0 else r.w);
  }

  /** After the last row: the reply is the sorted entries of the tally, and
      the index itself. */
  lemma StatsDone(data: Option<seq<byte>>, width: int, r: Rect, yy: int, tally: Tally<string>)
    requires 0 <= yy <= (if r.h < 0 then 0 else r.h) && !(yy < r.h)
    requires data.Some? && RowsFaultless(data.value, width, r, yy)
    requires tally == TallyOf(Keyed(Hits(data.value, width, r, yy)))
    ensures forall k :: k in tally.keys ==> k in tally.counts
    ensures StatsReply(data, width, r) == Success(SortByCount(Entries(tally)))
  {
    ScanDone(data.value, width, r, yy);
    TallyKeys(Keyed(Selection(data.value, width, r)));
  }

  lemma IndexDone(data: Option<seq<byte>>, width: int, r: Rect, yy: int, index: map<string, seq<int>>)
    requires 0 <= yy <= (if r.h < 0 then 0 else r.h) && !(yy < r.h)
    requires data.Some? && RowsFaultless(data.value, width, r, yy)
    requires index == IndexOf(Keyed(Hits(data.value, width, r, yy)))
    ensures IndexReply(data, width, r) == Success(index)
  {
    ScanDone(data.value, width, r, yy);
  }

  lemma StepHits(h: seq<Spot<Rgb>>, q: seq<Spot<Rgb>>, t: seq<Spot<Rgb>>)
    ensures h + (q + t) == (h + q) + t
  {
  }

  /** The key spot of a readable pixel, from the bytes the loop reads. */
  lemma StepKey(buf: seq<byte>, width: int, r: Rect, xx: int, yy: int)
    requires Readable(buf, width, r, xx, yy)
    ensures var idx := PixelIndex(width, r, xx, yy);
            KeySpot(PixelAt(buf, width, r, xx, yy)) == Spot(ToHex(buf[idx], buf[idx + 1], buf[idx + 2]), r.sx + xx, r.sy + yy)
  {
  }

  /** A readable pixel keeps the row faultless. */
  lemma StepFaultless(buf: seq<byte>, width: int, r: Rect, yy: int, xx: int, idx: int)
    requires idx == PixelIndex(width, r, xx, yy) && 0 <= idx && idx + 2 < |buf|
    requires RowFaultless(buf, width, r, yy, xx)
    ensures RowFaultless(buf, width, r, yy, xx + 1)
  {
    assert Readable(buf, width, r, xx, yy);
  }

  /** An opaque pixel of the rectangle with an undefined colour byte. */
  lemma Unreadable(buf: seq<byte>, width: int, r: Rect, yy: int, xx: int, idx: int)
    requires 0 <= yy < r.h && 0 <= xx < r.w && idx == PixelIndex(width, r, xx, yy)
    requires !(0 <= idx + 3 < |buf| && buf[idx + 3] == 0) && !(0 <= idx && idx + 2 < |buf|)
    ensures !Faultless(buf, width, r)
  {
    assert Opaque(buf, width, r, xx, yy) && !Readable(buf, width, r, xx, yy);
  }

  /** An undefined colour byte makes either scan throw. */
  lemma StatsThrows(data: Option<seq<byte>>, width: int, r: Rect)
    requires data.Some? && !Faultless(data.value, width, r)
    ensures StatsReply(data, width, r) == Failure(TypeError)
  {
  }

  lemma IndexThrows(data: Option<seq<byte>>, width: int, r: Rect)
    requires data.Some? && !Faultless(data.value, width, r)
    ensures IndexReply(data, width, r) == Failure(TypeError)
  {
  }

  /** A row not yet begun adds nothing. */
  lemma RowStart(buf: seq<byte>, width: int, r: Rect, yy: int)
    ensures Hits(buf, width, r, yy) + RowHits(buf, width, r, yy, 0) == Hits(buf, width, r, yy)
    ensures RowFaultless(buf, width, r, yy, 0)
  {
    assert RowHits(buf, width, r, yy, 0) == [];
  }

  /** A finished row joins the finished rows. */
  lemma RowDone(buf: seq<byte>, width: int, r: Rect, yy: int, xx: int)
    requires 0 <= yy && xx == (if r.w < 0 then 0 else r.w)
    requires RowsFaultless(buf, width, r, yy) && RowFaultless(buf, width, r, yy, xx)
    ensures Hits(buf, width, r, yy) + RowHits(buf, width, r, yy, xx) == Hits(buf, width, r, yy + 1)
    ensures RowsFaultless(buf, width, r, yy + 1)
  {
  }

  /** After the last row the scan has covered the rectangle. */
  lemma ScanDone(buf: seq<byte>, width: int, r: Rect, yy: int)
    requires yy == (if r.h < 0 then 0 else r.h)
    requires RowsFaultless(buf, width, r, yy)
    ensures Hits(buf, width, r, yy) == Selection(buf, width, r)
    ensures Faultless(buf, width, r)
  {
  }

  /** The offset of pixel (xx, yy), computed from the start of its row. */
  lemma RowOffset(width: int, r: Rect, xx: int, yy: int, rowStart: int, idx: int)
    requires rowStart == ((r.sy + yy) * width + r.sx) * 4 && idx == rowStart + xx * 4
    ensures idx == PixelIndex(width, r, xx, yy)
  {
  }

  /** One pass of the inner loop at column xx: a pixel whose alpha byte is 0
      is skipped; any other pixel has its colour read, which throws when the
      bytes lie outside the buffer. */
  method TallyPixel(buf: seq<byte>, width: int, r: Rect, yy: int, xx: int, idx: int, tally: Tally<string>)
    returns (res: Result<Tally<string>, Thrown>)
    requires 0 <= yy < r.h && 0 <= xx < r.w && idx == PixelIndex(width, r, xx, yy)
    requires tally == TallyOf(Keyed(Hits(buf, width, r, yy) + RowHits(buf, width, r, yy, xx)))
    requires RowFaultless(buf, width, r, yy, xx)
    ensures res.Success? ==>
              res.value == TallyOf(Keyed(Hits(buf, width, r, yy) + RowHits(buf, width, r, yy, xx + 1))) &&
              RowFaultless(buf, width, r, yy, xx + 1)
    ensures res.Failure? ==> res.error == TypeError && !Faultless(buf, width, r)
  {
    if !(0 <= idx + 3 < |buf| && buf[idx + 3] == 0) {
      if !(0 <= idx && idx + 2 < |buf|) {
        Unreadable(buf, width, r, yy, xx, idx);
        return Failure(TypeError);
      }
      var hex := ToHex(buf[idx], buf[idx + 1], buf[idx + 2]);
      TallyVisit(buf, width, r, yy, xx, idx, tally, hex);
      StepFaultless(buf, width, r, yy, xx, idx);
      return Success(Add(tally, hex));
    }
    TallySkip(buf, width, r, yy, xx, idx, tally);
    Skip(buf, width, r, yy, xx, idx);
    return Success(tally);
  }

  /** The inner loop of the stats branch over row yy: `map.set` for every
      pixel that passes the alpha test, or TypeError at the first one whose
      colour bytes are undefined. */
  method TallyRow(buf: seq<byte>, width: int, r: Rect, yy: int, start: Tally<string>)
    returns (res: Result<Tally<string>, Thrown>)
    requires 0 <= yy < r.h && start == TallyOf(Keyed(Hits(buf, width, r, yy)))
    ensures res.Success? ==>
              res.value == TallyOf(Keyed(Hits(buf, width, r, yy) + RowHits(buf, width, r, yy, if r.w < 0 then 0 else r.w))) &&
              RowFaultless(buf, width, r, yy, if r.w < 0 then 0 else r.w)
    ensures res.Failure? ==> res.error == TypeError && !Faultless(buf, width, r)
  {
    var tally := start;
    var rowStart := ((r.sy + yy) * width + r.sx) * 4;
    var xx := 0;
    TallyRowStart(buf, width, r, yy, tally);
    RowStart(buf, width, r, yy);
    while xx < r.w
      invariant 0 <= xx <= (if r.w < 0 then 0 else r.w)
      invariant tally == TallyOf(Keyed(Hits(buf, width, r, yy) + RowHits(buf, width, r, yy, xx)))
      invariant RowFaultless(buf, width, r, yy, xx)
    {
      var idx := rowStart + xx * 4;
      RowOffset(width, r, xx, yy, rowStart, idx);
      var step := TallyPixel(buf, width, r, yy, xx, idx, tally);
      if step.Failure? {
        return Failure(step.error);
      }
      tally := step.value;
      ghost var prev := xx;
      xx := xx + 1;
      TallyNext(buf, width, r, yy, prev, xx, tally);
    }
    TallyRowEnd(buf, width, r, yy, xx, tally);
    return Success(tally);
  }

  /** One pass of the inner loop at column xx: a pixel whose alpha byte is 0
      is skipped; any other pixel has its colour read, which throws when the
      bytes lie outside the buffer. */
  method IndexPixel(buf: seq<byte>, width: int, r: Rect, yy: int, xx: int, idx: int, index: map<string, seq<int>>)
    returns (res: Result<map<string, seq<int>>, Thrown>)
    requires 0 <= yy < r.h && 0 <= xx < r.w && idx == PixelIndex(width, r, xx, yy)
    requires index == IndexOf(Keyed(Hits(buf, width, r, yy) + RowHits(buf, width, r, yy, xx)))
    requires RowFaultless(buf, width, r, yy, xx)
    ensures res.Success? ==>
              res.value == IndexOf(Keyed(Hits(buf, width, r, yy) + RowHits(buf, width, r, yy, xx + 1))) &&
              RowFaultless(buf, width, r, yy, xx + 1)
    ensures res.Failure? ==> res.error == TypeError && !Faultless(buf, width, r)
  {
    if !(0 <= idx + 3 < |buf| && buf[idx + 3] == 0) {
      if !(0 <= idx && idx + 2 < |buf|) {
        Unreadable(buf, width, r, yy, xx, idx);
        return Failure(TypeError);
      }
      var hex := ToHex(buf[idx], buf[idx + 1], buf[idx + 2]);
      var x, y := r.sx + xx, r.sy + yy;
      IndexVisit(buf, width, r, yy, xx, idx, index, hex, x, y);
      StepFaultless(buf, width, r, yy, xx, idx);
      return Success(Push(index, hex, x, y));
    }
    IndexSkip(buf, width, r, yy, xx, idx, index);
    Skip(buf, width, r, yy, xx, idx);
    return Success(index);
  }

  /** The inner loop of the buildIndex branch over row yy: the coordinates
      of every pixel that passes the alpha test go to the end of its
      colour's list. */
  method IndexRow(buf: seq<byte>, width: int, r: Rect, yy: int, start: map<string, seq<int>>)
    returns (res: Result<map<string, seq<int>>, Thrown>)
    requires 0 <= yy < r.h && start == IndexOf(Keyed(Hits(buf, width, r, yy)))
    ensures res.Success? ==>
              res.value == IndexOf(Keyed(Hits(buf, width, r, yy) + RowHits(buf, width, r, yy, if r.w < 0 then 0 else r.w))) &&
              RowFaultless(buf, width, r, yy, if r.w < 0 then 0 else r.w)
    ensures res.Failure? ==> res.error == TypeError && !Faultless(buf, width, r)
  {
    var index := start;
    var rowStart := ((r.sy + yy) * width + r.sx) * 4;
    var xx := 0;
    IndexRowStart(buf, width, r, yy, index);
    RowStart(buf, width, r, yy);
    while xx < r.w
      invariant 0 <= xx <= (if r.w < 0 then 0 else r.w)
      invariant index == IndexOf(Keyed(Hits(buf, width, r, yy) + RowHits(buf, width, r, yy, xx)))
      invariant RowFaultless(buf, width, r, yy, xx)
    {
      var idx := rowStart + xx * 4;
      RowOffset(width, r, xx, yy, rowStart, idx);
      var step := IndexPixel(buf, width, r, yy, xx, idx, index);
      if step.Failure? {
        return Failure(step.error);
      }
      index := step.value;
      ghost var prev := xx;
      xx := xx + 1;
      IndexNext(buf, width, r, yy, prev, xx, index);
    }
    IndexRowEnd(buf, width, r, yy, xx, index);
    return Success(index);
  }

  /** The three module-level variables of the worker. */
  class Worker {
    var width: int
    var height: int
    var data: Option<seq<byte>>

    constructor ()
      ensures width == 0 && height == 0 && data == None
    {
      width, height, data := 0, 0, None;
    }

    /** The init branch. */
    method Init(w: int, h: int, d: Option<seq<byte>>)
      modifies this
      ensures width == w && height == h && data == d
    {
      width, height, data := w, h, d;
    }

    /** The stats branch: the loop over the rows, then the conversion to
        entries and the sort. */
    method Stats(r: Rect) returns (res: Result<seq<ColorCount<string>>, Thrown>)
      ensures res == StatsReply(data, width, r)
    {
      if data.None? {
        return Success([]);
      }
      var buf := data.value;
      var tally: Tally<string> := Tally([], map[]);
      var yy := 0;
      while yy < r.h
        invariant 0 <= yy <= (if r.h < 0 then 0 else r.h)
        invariant tally == TallyOf(Keyed(Hits(buf, width, r, yy)))
        invariant RowsFaultless(buf, width, r, yy)
      {
        var row := TallyRow(buf, width, r, yy, tally);
        if row.Failure? {
          StatsThrows(data, width, r);
          return Failure(row.error);
        }
        tally := row.value;
        ghost var prev := yy;
        yy := yy + 1;
        TallyRowDone(buf, width, r, prev, yy, tally);
      }
      StatsDone(data, width, r, yy, tally);
      var arr := Entries(tally);
      return Success(SortByCount(arr));
    }

    /** The buildIndex branch: the loop over the rows. */
    method BuildIndex(r: Rect) returns (res: Result<map<string, seq<int>>, Thrown>)
      ensures res == IndexReply(data, width, r)
    {
      if data.None? {
        return Success(map[]);
      }
      var buf := data.value;
      var index: map<string, seq<int>> := map[];
      var yy := 0;
      while yy < r.h
        invariant 0 <= yy <= (if r.h < 0 then 0 else r.h)
        invariant index == IndexOf(Keyed(Hits(buf, width, r, yy)))
        invariant RowsFaultless(buf, width, r, yy)
      {
        var row := IndexRow(buf, width, r, yy, index);
        if row.Failure? {
          IndexThrows(data, width, r);
          return Failure(row.error);
        }
        index := row.value;
        ghost var prev := yy;
        yy := yy + 1;
        IndexRowDone(buf, width, r, prev, yy, index);
      }
      IndexDone(data, width, r, yy, index);
      return Success(index);
    }

    /** onmessage: init replaces the three variables and answers nothing;
        every other message leaves them as they are and gets the answer of
        its branch, or the catch block's reply when the scan throws. */
    method OnMessage(msg: Message) returns (reply: Option<Reply>)
      modifies this
      ensures msg.InitMsg? ==> width == msg.width && height == msg.height && data == msg.data && reply.None?
      ensures !msg.InitMsg? ==> width == old(width) && height == old(height) && data == old(data)
      ensures !msg.InitMsg? ==> reply == Answer(msg, old(width), old(data))
    {
      match msg
      case InitMsg(w, h, d) =>
        Init(w, h, d);
        return None;
      case StatsMsg(r, id) =>
        var res := Stats(r);
        if res.Failure? {
          return Caught(id);
        }
        return Some(StatsResult(id, res.value));
      case BuildIndexMsg(r, id) =>
        var res := BuildIndex(r);
        if res.Failure? {
          return Caught(id);
        }
        return Some(IndexResult(id, res.value));
      case _ =>
        return None;
    }
  }
}
