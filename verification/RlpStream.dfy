/**
 The encoder object that transactions are written to: a list is announced with its number of
 items and closes itself once that many have been appended.
 */
module RlpStreams {
  import opened Bytes
  import opened Rlp

  // A list under construction: how many items it will have, and those it has.
  datatype Frame = Frame(size: nat, done: seq<Item>)

  // What has been written so far: finished items, and the open lists, innermost last.
  datatype Progress = Progress(finished: seq<Item>, open: seq<Frame>)

  const EMPTY: Progress := Progress([], [])

  // Appends an item to the innermost open list, and closes lists that are complete.
  function Add(p: Progress, x: Item): Progress
    decreases |p.open|
  {
    if p.open == [] then p.(finished := p.finished + [x])
    else
      var k := |p.open| - 1;
      var f := p.open[k];
      if |f.done| + 1 == f.size then Add(p.(open := p.open[..k]), List(f.done + [x]))
      else p.(open := p.open[..k] + [f.(done := f.done + [x])])
  }

  function Begin(p: Progress, size: nat): Progress {
    if size == 0 then Add(p, List([])) else p.(open := p.open + [Frame(size, [])])
  }

  function AddAll(p: Progress, xs: seq<Item>): Progress {
    if xs == [] then p else Add(AddAll(p, xs[..|xs| - 1]), xs[|xs| - 1])
  }

  lemma AddAllSnoc(p: Progress, xs: seq<Item>, x: Item)
    ensures AddAll(p, xs + [x]) == Add(AddAll(p, xs), x)
  {
    assert (xs + [x])[..|xs|] == xs;
  }

  lemma {:induction false} PartOfList(p: Progress, size: nat, xs: seq<Item>)
    requires |xs| < size
    ensures AddAll(Begin(p, size), xs) == p.(open := p.open + [Frame(size, xs)])
  {
    if xs != [] {
      var k := |xs| - 1;
      PartOfList(p, size, xs[..k]);
      assert xs[..k] + [xs[k]] == xs;
      assert (p.open + [Frame(size, xs[..k])])[..|p.open|] == p.open;
    }
  }

  // Announcing a list and appending its items is appending the list.
  lemma {:induction false} ListCloses(p: Progress, xs: seq<Item>)
    ensures AddAll(Begin(p, |xs|), xs) == Add(p, List(xs))
  {
    if xs != [] {
      var k := |xs| - 1;
      PartOfList(p, |xs|, xs[..k]);
      assert xs[..k] + [xs[k]] == xs;
      assert (p.open + [Frame(|xs|, xs[..k])])[..|p.open|] == p.open;
    }
  }

  // ---------- the octets ----------

  // An open list as it is stored: its size, how many items it has, and their octets.
  datatype OpenList = OpenList(size: nat, count: nat, payload: seq<byte>)

  predicate Stores(open: seq<OpenList>, frames: seq<Frame>) {
    |open| == |frames| && forall i :: 0 <= i < |open| ==>
      open[i].size == frames[i].size && open[i].count == |frames[i].done| < frames[i].size
      && open[i].payload == EncAll(frames[i].done)
  }

  lemma EncSnoc(xs: seq<Item>, x: Item)
    ensures EncAll(xs + [x]) == EncAll(xs) + Enc(x)
  {
    EncAllConcat(xs, [x]);
    EncAllOne(x);
  }

  class RlpStream {
    var raw: seq<byte>
    var open: seq<OpenList>
    ghost var progress: Progress

    ghost predicate Valid()
      reads this
    {
      raw == EncAll(progress.finished) && Stores(open, progress.open)
    }

    constructor ()
      ensures Valid() && progress == EMPTY
    {
      raw := [];
      open := [];
      progress := EMPTY;
    }

    // Writes the octets of a complete item into the innermost open list.
    method Write(octets: seq<byte>, ghost x: Item)
      requires Valid() && octets == Enc(x)
      modifies this
      ensures Valid() && progress == Add(old(progress), x)
      decreases |open|
    {
      if open == [] {
        EncSnoc(progress.finished, x);
        raw := raw + octets;
        progress := progress.(finished := progress.finished + [x]);
        return;
      }
      var k := |open| - 1;
      var inner := open[k];
      ghost var f := progress.open[k];
      EncSnoc(f.done, x);
      if inner.count + 1 == inner.size {
        var payload := inner.payload + octets;
        open := open[..k];
        progress := progress.(open := progress.open[..k]);
        Write(Header(192, |payload|) + payload, List(f.done + [x]));
      } else {
        open := open[..k] + [OpenList(inner.size, inner.count + 1, inner.payload + octets)];
        progress := progress.(open := progress.open[..k] + [f.(done := f.done + [x])]);
      }
    }

    method Append(bytes: seq<byte>)
      requires Valid()
      modifies this
      ensures Valid() && progress == Add(old(progress), Str(bytes))
    {
      Write(EncStr(bytes), Str(bytes));
    }

    method BeginList(size: nat)
      requires Valid()
      modifies this
      ensures Valid() && progress == Begin(old(progress), size)
    {
      if size == 0 {
        Write([192], List([]));
      } else {
        open := open + [OpenList(size, 0, [])];
        progress := progress.(open := progress.open + [Frame(size, [])]);
      }
    }
  }
}
