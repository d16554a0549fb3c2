// The paged cursor (cursor_base.go).
module Cursors {
  import opened Wrappers
  import opened Bytes
  import opened Streams
  import opened Values
  import opened Codec
  import opened RoundTrip
  import opened Marshaller

  datatype Page = Page(data: seq<Value>, more: bool)

  // The answer to a next-page request: an error or none, and what is left to read, if anything.
  datatype Response = Response(failed: bool, input: Option<seq<byte>>)

  // Integers and the last byte are read without a check: the source panics at the end.
  function DecodePage(buf: seq<byte>, rowSize: nat): Result<Page> {
    if |buf| < 4 || Int32At(buf, 0) < 0 then Err(Panic)
    else
      match DecodeSeq(None, buf, 4, Int32At(buf, 0) * rowSize, [])
      case Err(e) => Err(e)
      case Ok(values) =>
        if values.next >= |buf| then Err(Panic) else Ok(Page(values.value, buf[values.next] == 1))
  }

  // The values that are read before an error, if there is one.
  function ReadSome(buf: seq<byte>, pos: nat, n: nat, acc: seq<Value>): seq<Value>
    decreases n
  {
    if n == 0 then acc
    else
      match DecodeElement(None, buf, pos)
      case Ok(e) => ReadSome(buf, e.next, n - 1, acc + [e.value])
      case Err(_) => acc
  }

  // The rows that a page leaves behind when it cannot be read to its end.
  function PartOfPage(buf: seq<byte>, rowSize: nat): seq<Value> {
    if |buf| < 4 || Int32At(buf, 0) < 0 then [] else ReadSome(buf, 4, Int32At(buf, 0) * rowSize, [])
  }

  function PageBytes(rows: nat, values: seq<Value>, more: bool): seq<byte> {
    LE(4, rows) + (EncodeAll(values) + LE(1, if more then 1 else 0))
  }

  // The number of rows, the values one behind the other, and one byte that is one if there is more.
  lemma PageFormat(rows: nat, values: seq<Value>, more: bool)
    requires rows <= MAX_INT32
    ensures var buf, end := PageBytes(rows, values, more), 4 + |EncodeAll(values)|;
      && |buf| == end + 1 && Int32At(buf, 0) == rows && buf[4..end] == EncodeAll(values)
      && buf[end] == if more then 1 else 0
  {
    hide EncodeAll;
    var buf, flag := PageBytes(rows, values, more), LE(1, if more then 1 else 0);
    assert At(buf, 0, LE(4, rows)) && flag == [if more then 1 else 0] + LE(0, 0);
    Int32AtWritten(buf, 0, rows);
  }

  // A page that the server writes is read with all its values.
  lemma PageRead(rows: nat, rowSize: nat, values: seq<Value>, more: bool)
    requires AllWellFormed(values) && |values| == rows * rowSize && rows <= MAX_INT32 && |EncodeAll(values)| <= MAX_INT32
    ensures DecodePage(PageBytes(rows, values, more), rowSize) == Ok(Page(NormAll(values), more))
  {
    hide EncodeAll, DecodeSeq, AllWellFormed, NormAll;
    var buf, flag := PageBytes(rows, values, more), LE(1, if more then 1 else 0);
    var tail := EncodeAll(values) + flag;
    assert At(buf, 0, LE(4, rows) + tail);
    AtSplit(buf, 0, LE(4, rows), tail);
    AtSplit(buf, 4, EncodeAll(values), flag);
    Int32AtWritten(buf, 0, rows);
    SeqRoundTrip(None, values, buf, 4, []);
    assert [] + NormAll(values) == NormAll(values);
    assert buf[4 + |EncodeAll(values)|] == flag[0];
  }

  datatype State = State(data: seq<Value>, currIdx: int, hasMore: bool, failed: bool)

  // What Next does to a cursor: the reply is only looked at when the page is used up.  Of a panic
  // only the fact counts.
  datatype Stepped = Stepped(state: State, found: Result<bool>, asked: bool)

  function NextIn(c: State, rowSize: nat, reply: Response): Stepped {
    if c.failed then Stepped(c, Ok(false), false)
    else
      var idx := if c.currIdx < 0 then 0 else c.currIdx + rowSize;
      if idx < |c.data| then Stepped(c.(currIdx := idx), Ok(true), false)
      else if !c.hasMore then Stepped(c.(currIdx := idx), Ok(false), false)
      else if reply.input.None? then Stepped(c, Err(Panic), true)
      else
        match DecodePage(reply.input.value, rowSize)
        case Ok(page) =>
          Stepped(State(page.data, 0, page.more, reply.failed), Ok(!reply.failed && page.data != []), true)
        case Err(Panic) => Stepped(c, Err(Panic), true)
        case Err(_) => Stepped(State(PartOfPage(reply.input.value, rowSize), 0, c.hasMore, true), Ok(false), true)
  }

  function NextIndex(c: State, rowSize: nat): int {
    if c.currIdx < 0 then 0 else c.currIdx + rowSize
  }

  // What becomes of a failed request: Next panics exactly if the reply cannot be read as a page
  // without a panic, and reports the error otherwise.
  lemma FailedRequest(c: State, rowSize: nat, reply: Response)
    requires !c.failed && NextIndex(c, rowSize) >= |c.data| && c.hasMore && reply.failed
    ensures var step := NextIn(c, rowSize, reply);
      && step.asked
      && (step.found == Err(Panic) <==> reply.input.None? || DecodePage(reply.input.value, rowSize) == Err(Panic))
      && (step.found != Err(Panic) ==> step.found == Ok(false) && step.state.failed)
  {
  }

  // The replies that the channels give when there is no connection hold nothing to read.
  lemma LostConnectionPanics(c: State, rowSize: nat, reply: Response)
    requires !c.failed && NextIndex(c, rowSize) >= |c.data| && c.hasMore && reply.failed
    requires reply.input in {None, Some([])}
    ensures NextIn(c, rowSize, reply).found == Err(Panic)
  {
    FailedRequest(c, rowSize, reply);
  }

  // The element loop of readData: it keeps what it has read when it meets an error.
  method ReadValues(input: InputStream, n: nat) returns (data: seq<Value>, r: Result<()>)
    requires input.position <= |input.buffer|
    modifies input
    ensures data == ReadSome(input.buffer, old(input.position), n, [])
    ensures match DecodeSeq(None, input.buffer, old(input.position), n, [])
      case Ok(read) => r == Ok(()) && data == read.value && input.position == read.next
      case Err(e) => r == Err(e)
  {
    hide DecodeElement;
    ghost var buf, pos := input.buffer, input.position;
    data := [];
    for i := 0 to n
      invariant input.position <= |buf|
      invariant DecodeSeq(None, buf, pos, n, []) == DecodeSeq(None, buf, input.position, n - i, data)
      invariant ReadSome(buf, pos, n, []) == ReadSome(buf, input.position, n - i, data)
    {
      var val := ReadElement(None, input);
      if val.Err? {
        return data, Err(val.error);
      }
      data := data + [val.value];
    }
    r := Ok(());
  }

  class Cursor {
    var data: seq<Value>
    var currIdx: int
    var hasMore: bool
    var lastErr: bool
    const rowSize: nat

    function View(): State
      reads this
    {
      State(data, currIdx, hasMore, lastErr)
    }

    constructor (rowSize: nat, first: Page)
      ensures this.rowSize == rowSize && View() == State(first.data, -1, first.more, false)
    {
      this.rowSize := rowSize;
      data, currIdx, hasMore, lastErr := first.data, -1, first.more, false;
    }

    method ReadData(buf: seq<byte>) returns (r: Result<()>)
      modifies this`data, this`hasMore
      ensures match DecodePage(buf, rowSize)
        case Ok(page) => r == Ok(()) && data == page.data && hasMore == page.more
        case Err(e) => r == Err(e) && (e != Panic ==> data == PartOfPage(buf, rowSize) && hasMore == old(hasMore))
    {
      hide DecodeSeq, ReadSome;
      var input := new InputStream(buf, 0);
      if input.Available() < 4 {
        return Err(Panic);
      }
      var size := input.ReadInt32();
      if size < 0 {
        return Err(Panic);
      }
      var sz: int := size;
      var values, read := ReadValues(input, sz * rowSize);
      data := values;
      if read.Err? {
        return Err(read.error);
      }
      if input.Available() < 1 {
        return Err(Panic);
      }
      var flag := input.ReadUInt(1);
      hasMore := flag == 1;
      return Ok(());
    }

    method Next(reply: Response) returns (found: Result<bool>, asked: bool)
      modifies this
      ensures found == NextIn(old(View()), rowSize, reply).found && asked == NextIn(old(View()), rowSize, reply).asked
      ensures found != Err(Panic) ==> View() == NextIn(old(View()), rowSize, reply).state
    {
      hide DecodePage, PartOfPage;
      asked := false;
      if lastErr {
        return Ok(false), false;
      }
      if currIdx < 0 {
        currIdx := 0;
      } else {
        currIdx := currIdx + rowSize;
      }
      if currIdx < |data| {
        return Ok(true), false;
      }
      if !hasMore {
        return Ok(false), false;
      }
      asked := true;
      if reply.failed {
        lastErr := true;
      }
      if reply.input.None? {
        return Err(Panic), true;
      }
      var read := ReadData(reply.input.value);
      if read == Err(Panic) {
        return Err(Panic), true;
      }
      if read.Err? {
        lastErr := true;
      }
      currIdx := 0;
      if lastErr {
        return Ok(false), true;
      }
      return Ok(currIdx < |data|), true;
    }
  }

  // ------------------------------------------------------------- all the rows

  // What a loop over Next sees of the pages behind the first: it ends at an empty page.
  function Seen(later: seq<Page>): seq<Value> {
    if later == [] || later[0].data == [] then [] else later[0].data + Seen(later[1..])
  }

  function AllRows(pages: seq<Page>): seq<Value> {
    if pages == [] then [] else pages[0].data + AllRows(pages[1..])
  }

  // The pages that it asks for.
  function Asked(later: seq<Page>): nat {
    if later == [] then 0 else if later[0].data == [] then 1 else 1 + Asked(later[1..])
  }

  predicate Whole(page: Page, rowSize: nat)
    requires rowSize > 0
  {
    |page.data| % rowSize == 0
  }

  // Every page but the last says that there is more.
  predicate Consistent(pages: seq<Page>) {
    forall i :: 0 <= i < |pages| ==> (pages[i].more <==> i < |pages| - 1)
  }

  predicate Serves(reply: Response, page: Page, rowSize: nat) {
    !reply.failed && reply.input.Some? && DecodePage(reply.input.value, rowSize) == Ok(page)
  }

  lemma NextRowFits(n: nat, idx: nat, rowSize: nat)
    requires rowSize > 0 && n % rowSize == 0 && idx % rowSize == 0 && idx < n
    ensures idx + rowSize <= n && (idx + rowSize) % rowSize == 0
  {
    var a, b := n / rowSize, idx / rowSize;
    assert n == rowSize * a && idx == rowSize * b;
    if a <= b {
      MulAtMost(rowSize, a, b);
    } else {
      MulAtMost(rowSize, b + 1, a);
      assert rowSize * (b + 1) == rowSize * b + rowSize;
    }
    DivModUnique(idx + rowSize, rowSize, b + 1, 0);
  }

  lemma MulAtMost(x: nat, a: int, b: int)
    requires a <= b
    ensures x * a <= x * b
  {
    assert x * b == x * a + x * (b - a);
  }

  // Between two calls of the loop, with `later` still at the server.
  predicate Ready(c: State, rowSize: nat, later: seq<Page>)
    requires rowSize > 0
  {
    && !c.failed && (c.hasMore <==> later != [])
    && 0 <= NextIndex(c, rowSize) <= |c.data|
    && |c.data| % rowSize == 0 && NextIndex(c, rowSize) % rowSize == 0
  }

  // The rows still to be seen by a loop that stands at this state with these pages to come.
  function Left(c: State, rowSize: nat, later: seq<Page>): seq<Value>
    requires rowSize > 0 && Ready(c, rowSize, later)
  {
    c.data[NextIndex(c, rowSize)..] + Seen(later)
  }

  // One call of Next: the next row, or the end of what the loop sees.
  lemma NextSees(c: State, rowSize: nat, later: seq<Page>, reply: Response)
    requires rowSize > 0 && Ready(c, rowSize, later)
    requires Consistent(later) && forall i :: 0 <= i < |later| ==> Whole(later[i], rowSize)
    requires later != [] ==> Serves(reply, later[0], rowSize)
    ensures var step := NextIn(c, rowSize, reply);
      var rest := if step.asked then later[1..] else later;
      && step.found.Ok? && 0 <= NextIndex(c, rowSize) <= |c.data|
      && (step.asked ==> later != [] && NextIndex(c, rowSize) == |c.data|)
      && (step.found.value ==>
            && 0 <= step.state.currIdx <= step.state.currIdx + rowSize <= |step.state.data|
            && Ready(step.state, rowSize, rest)
            && Left(c, rowSize, later)
                 == step.state.data[step.state.currIdx..step.state.currIdx + rowSize] + Left(step.state, rowSize, rest))
      && (!step.found.value ==> Left(c, rowSize, later) == [])
      && (!step.asked ==> step.state.data == c.data && NextIndex(step.state, rowSize) > NextIndex(c, rowSize))
      && Asked(later) == (if step.asked then 1 else 0) + (if step.found.value then Asked(rest) else 0)
  {
    hide DecodePage, PartOfPage;
    var idx := NextIndex(c, rowSize);
    var step := NextIn(c, rowSize, reply);
    if idx < |c.data| {
      NextRowFits(|c.data|, idx, rowSize);
      assert c.data[idx..] == c.data[idx..idx + rowSize] + c.data[idx + rowSize..];
    } else if c.hasMore && later[0].data != [] {
      var page := later[0];
      NextRowFits(|page.data|, 0, rowSize);
      assert page.data == page.data[0..rowSize] + page.data[rowSize..];
      assert later[1..] != [] <==> page.more;
    }
  }

  lemma LaterConsistent(first: Page, later: seq<Page>)
    requires Consistent([first] + later)
    ensures Consistent(later) && (first.more <==> later != [])
  {
    var all := [first] + later;
    assert all[0] == first;
    forall i | 0 <= i < |later| ensures later[i].more <==> i < |later| - 1 {
      assert all[i + 1] == later[i];
    }
  }

  lemma LeftAtStart(c: State, rowSize: nat, later: seq<Page>)
    requires c.currIdx < 0 && !c.failed && rowSize > 0
    requires Whole(Page(c.data, c.hasMore), rowSize) && (c.hasMore <==> later != [])
    ensures Ready(c, rowSize, later) && later[0..] == later
    ensures Left(c, rowSize, later) == c.data + Seen(later)
  {
  }

  lemma TailConsistent(later: seq<Page>, k: nat)
    requires Consistent(later) && k <= |later|
    ensures Consistent(later[k..])
  {
  }

  // The rows and requests of a loop so far, and what is left, make up the whole.
  predicate Adds(c: State, rowSize: nat, later: seq<Page>, all: seq<Value>, total: nat, rows: seq<Value>, requests: nat)
    requires rowSize > 0
  {
    requests <= |later| && Ready(c, rowSize, later[requests..])
    && all == rows + Left(c, rowSize, later[requests..]) && total == requests + Asked(later[requests..])
  }

  lemma NextAdds(c: State, rowSize: nat, later: seq<Page>, all: seq<Value>, total: nat, rows: seq<Value>, requests: nat,
                 reply: Response)
    requires rowSize > 0 && Adds(c, rowSize, later, all, total, rows, requests)
    requires Consistent(later) && forall i :: 0 <= i < |later| ==> Whole(later[i], rowSize)
    requires requests < |later| ==> Serves(reply, later[requests], rowSize)
    ensures var step := NextIn(c, rowSize, reply);
      var asked := if step.asked then requests + 1 else requests;
      && step.found.Ok? && 0 <= NextIndex(c, rowSize) <= |c.data| && asked <= |later|
      && (step.found.value ==>
            && 0 <= step.state.currIdx <= step.state.currIdx + rowSize <= |step.state.data|
            && Adds(step.state, rowSize, later, all, total,
                    rows + step.state.data[step.state.currIdx..step.state.currIdx + rowSize], asked))
      && (!step.found.value ==> all == rows && total == asked)
      && (!step.asked ==> step.state.data == c.data && NextIndex(step.state, rowSize) > NextIndex(c, rowSize))
  {
    hide DecodePage, PartOfPage, NextIn, Serves, Seen, Left, Ready, Consistent, Whole, Asked;
    var rest := later[requests..];
    TailConsistent(later, requests);
    NextSees(c, rowSize, rest, reply);
    assert NextIn(c, rowSize, reply).asked ==> rest[1..] == later[requests + 1..];
  }

  // A loop that reads the rows one by one: it sees the rows of all pages up to the first empty one
  // among the later pages, each once and in order, and asks for those pages, each once.
  method ReadRows(c: Cursor, later: seq<Page>, replies: seq<Response>) returns (rows: seq<Value>, requests: nat)
    requires c.rowSize > 0 && c.currIdx < 0 && !c.lastErr
    requires forall i :: 0 <= i < |later| ==> Whole(later[i], c.rowSize)
    requires Whole(Page(c.data, c.hasMore), c.rowSize) && Consistent([Page(c.data, c.hasMore)] + later)
    requires |replies| == |later| && forall i :: 0 <= i < |later| ==> Serves(replies[i], later[i], c.rowSize)
    modifies c
    ensures rows == old(c.data) + Seen(later)
    ensures requests == Asked(later)
  {
    hide DecodePage, PartOfPage, NextIn, Serves, Seen, Left, Ready, Consistent, Whole, Asked;
    ghost var first := Page(c.data, c.hasMore);
    ghost var all, total := c.data + Seen(later), Asked(later);
    LaterConsistent(first, later);
    rows, requests := [], 0;
    LeftAtStart(c.View(), c.rowSize, later);
    assert [] + all == all;
    assert Adds(c.View(), c.rowSize, later, all, total, rows, requests);
    hide Adds;
    var found := Ok(true);
    while found.Ok? && found.value
      invariant requests <= |later| && found.Ok?
      invariant found.value ==> Adds(c.View(), c.rowSize, later, all, total, rows, requests)
      invariant !found.value ==> all == rows && total == requests
      decreases |later| - requests, |c.data| - NextIndex(c.View(), c.rowSize)
    {
      var reply := if requests < |replies| then replies[requests] else Response(false, None);
      NextAdds(c.View(), c.rowSize, later, all, total, rows, requests, reply);
      var asked;
      found, asked := c.Next(reply);
      if asked {
        requests := requests + 1;
      }
      if found.value {
        rows := rows + c.data[c.currIdx..c.currIdx + c.rowSize];
      }
    }
  }

  // Rows behind an empty page.
  predicate HasGap(pages: seq<Page>) {
    exists i, k :: 0 <= i < k < |pages| && pages[i].data == [] && pages[k].data != []
  }

  lemma {:induction false} NoRows(pages: seq<Page>)
    ensures AllRows(pages) == [] <==> forall k :: 0 <= k < |pages| ==> pages[k].data == []
  {
    if pages != [] {
      NoRows(pages[1..]);
      if AllRows(pages) == [] {
        forall k | 0 <= k < |pages| ensures pages[k].data == [] {
          assert k > 0 ==> pages[k] == pages[1..][k - 1];
        }
      }
    }
  }

  lemma GapTail(pages: seq<Page>)
    requires pages != []
    ensures HasGap(pages) <==>
      HasGap(pages[1..]) || (pages[0].data == [] && exists k :: 0 < k < |pages| && pages[k].data != [])
  {
    var rest := pages[1..];
    if HasGap(pages) {
      var i, k :| 0 <= i < k < |pages| && pages[i].data == [] && pages[k].data != [];
      if i > 0 {
        assert rest[i - 1].data == [] && rest[k - 1].data != [];
      }
    }
    if HasGap(rest) {
      var i, k :| 0 <= i < k < |rest| && rest[i].data == [] && rest[k].data != [];
      assert pages[i + 1].data == [] && pages[k + 1].data != [];
    }
  }

  // The loop sees every row exactly when no page with rows comes behind an empty one.
  lemma {:induction false} SeesAllRows(later: seq<Page>)
    ensures Seen(later) == AllRows(later) <==> !HasGap(later)
    ensures Seen(later) <= AllRows(later)
    decreases |later|
  {
    hide HasGap;
    if later == [] {
      assert !HasGap(later) by { NothingBehind(); }
    } else {
      GapTail(later);
      NoRows(later);
      SeesAllRows(later[1..]);
      if later[0].data == [] {
        var rest := later[1..];
        NoRows(rest);
        assert forall k :: 0 < k < |later| ==> later[k] == rest[k - 1];
        assert AllRows(later) == AllRows(rest);
      }
    }
  }

  lemma NothingBehind()
    ensures !HasGap([])
  {
  }

  // One request for every later page, unless the loop stops before the last.
  lemma {:induction false} AsksForAllPages(later: seq<Page>)
    ensures Asked(later) <= |later|
    ensures Asked(later) == |later| <==> forall i :: 0 <= i < |later| - 1 ==> later[i].data != []
    decreases |later|
  {
    if later != [] {
      var rest := later[1..];
      AsksForAllPages(rest);
      assert forall i :: 0 <= i < |rest| ==> rest[i] == later[i + 1];
      if later[0].data != [] && Asked(rest) == |rest| {
        forall i | 0 <= i < |later| - 1 ensures later[i].data != [] {
          assert i > 0 ==> later[i] == rest[i - 1];
        }
      }
    }
  }
}
