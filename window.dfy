/** The queue of outstanding requests that both transfers keep (struct
    request in do_download, struct outstanding_ack in do_upload): each
    entry covers a range of the file and carries the id of the request
    that asked for it. */
module Window {
  import opened Wire
  import opened Client

  /** One outstanding request: its id, length and file offset. */
  datatype Req = Req(id: u32, len: u32, offset: nat)

  /** The ranges of the requests issued so far, in order, tile [0, end):
      each starts where the previous one stopped. */
  ghost predicate Tiles(issued: seq<Req>, end: nat)
    decreases |issued|
  {
    if issued == [] then end == 0
    else
      var last := issued[|issued| - 1];
      Tiles(issued[..|issued| - 1], last.offset) && end == last.offset + last.len
  }

  /** Issued ranges never overlap: an earlier one ends before a later one
      starts. */
  lemma {:induction false} TilesDisjoint(issued: seq<Req>, end: nat, j: nat, k: nat)
    requires Tiles(issued, end)
    requires j < k < |issued|
    ensures issued[j].offset + issued[j].len <= issued[k].offset
    decreases |issued|
  {
    var init := issued[..|issued| - 1];
    var last := issued[|issued| - 1];
    TilesBound(init, last.offset);
    if k < |issued| - 1 {
      TilesDisjoint(init, last.offset, j, k);
    } else {
      assert issued[j] == init[j];
    }
  }

  /** Every issued range lies inside [0, end). */
  lemma {:induction false} TilesBound(issued: seq<Req>, end: nat)
    requires Tiles(issued, end)
    ensures forall q :: q in issued ==> q.offset + q.len <= end
    decreases |issued|
  {
    if issued != [] {
      var init := issued[..|issued| - 1];
      TilesBound(init, issued[|issued| - 1].offset);
      assert issued == init + [issued[|issued| - 1]];
    }
  }

  /** Every offset in [0, end) lies in some issued range: the ranges leave
      no gap. */
  lemma {:induction false} TilesCover(issued: seq<Req>, end: nat, x: nat)
    requires Tiles(issued, end)
    requires x < end
    ensures exists k :: 0 <= k < |issued| && issued[k].offset <= x < issued[k].offset + issued[k].len
    decreases |issued|
  {
    var init := issued[..|issued| - 1];
    var last := issued[|issued| - 1];
    if x < last.offset {
      TilesCover(init, last.offset, x);
      var k :| 0 <= k < |init| && init[k].offset <= x < init[k].offset + init[k].len;
      assert issued[k] == init[k];
    } else {
      assert issued[|issued| - 1] == last;
    }
  }

  /** Requests whose ids run consecutively from `first`, wrapping as a
      `u_int` does. */
  ghost predicate Consecutive(qs: seq<Req>, first: u32) {
    forall k :: 0 <= k < |qs| ==> qs[k].id == Add32(first, k)
  }

  /** Issuing the next range where the last one stopped keeps the ranges
      tiling. */
  lemma TilesExtend(issued: seq<Req>, end: nat, q: Req)
    requires Tiles(issued, end) && q.offset == end
    ensures Tiles(issued + [q], end + q.len)
  {
    assert (issued + [q])[..|issued|] == issued;
  }

  /** A request under the next id extends the run of consecutive ids. */
  lemma ConsecutiveExtend(added: seq<Req>, q: Req, first: u32)
    requires Consecutive(added, first)
    requires q.id == Add32(first, |added|)
    ensures Consecutive(added + [q], first)
    ensures Inc32(q.id) == Add32(first, |added + [q]|)
  {
    AddNext(first, |added|);
  }

  /** The position of the first request in the queue carrying `id`, if
      any. */
  ghost function FirstMatch(qs: seq<Req>, id: u32): (k: Option<nat>)
    ensures k.Some? ==> k.value < |qs| && qs[k.value].id == id
    ensures k.Some? ==> forall j :: 0 <= j < k.value ==> qs[j].id != id
    ensures k.None? <==> forall j :: 0 <= j < |qs| ==> qs[j].id != id
  {
    if qs == [] then None
    else if qs[0].id == id then Some(0)
    else
      var k := FirstMatch(qs[1..], id);
      if k.None? then None else Some(k.value + 1)
  }

  /** The search of the request queue for the reply's id: the first
      request carrying it, or None. */
  method FindRequest(requests: seq<Req>, id: u32) returns (k: Option<nat>)
    ensures k.Some? ==> k.value < |requests| && requests[k.value].id == id
    ensures k.Some? ==> forall j :: 0 <= j < k.value ==> requests[j].id != id
    ensures k.None? <==> forall j :: 0 <= j < |requests| ==> requests[j].id != id
    ensures k == FirstMatch(requests, id)
  {
    var i := 0;
    while i < |requests| && requests[i].id != id
      invariant 0 <= i <= |requests|
      invariant forall j :: 0 <= j < i ==> requests[j].id != id
    {
      i := i + 1;
    }
    k := if i < |requests| then Some(i) else None;
  }

  /** Every outstanding range lies below `end`. */
  ghost predicate Below(requests: seq<Req>, end: nat) {
    forall q :: q in requests ==> q.offset + q.len <= end
  }

  /** Removing a request keeps the rest below `end`. */
  lemma BelowRemove(requests: seq<Req>, i: nat, end: nat)
    requires Below(requests, end) && i < |requests|
    ensures Below(requests[..i] + requests[i + 1..], end)
  {
    forall q | q in requests[..i] + requests[i + 1..]
      ensures q in requests
    {
      if q in requests[..i] {
        var j :| 0 <= j < i && requests[..i][j] == q;
        assert requests[j] == q;
      } else {
        var j :| 0 <= j < |requests| - i - 1 && requests[i + 1..][j] == q;
        assert requests[i + 1 + j] == q;
      }
    }
  }

  /** Replacing a request by one ending where it ended keeps the queue
      below `end`. */
  lemma BelowReplace(requests: seq<Req>, i: nat, rest: Req, end: nat)
    requires Below(requests, end) && i < |requests|
    requires rest.offset + rest.len == requests[i].offset + requests[i].len
    ensures Below(requests[i := rest], end)
  {
    forall q | q in requests[i := rest]
      ensures q.offset + q.len <= end
    {
      var j :| 0 <= j < |requests| && requests[i := rest][j] == q;
      if j != i {
        assert requests[j] == q;
      } else {
        assert requests[i] in requests;
      }
    }
  }

  /** Fresh requests ending below a larger `end` join a queue that was
      below the old one. */
  lemma BelowAppend(a: seq<Req>, b: seq<Req>, end: nat, end': nat)
    requires Below(a, end) && end <= end'
    requires forall k :: 0 <= k < |b| ==> b[k].offset + b[k].len <= end'
    ensures Below(a + b, end')
  {
    forall q | q in a + b
      ensures q.offset + q.len <= end'
    {
      if q !in a {
        var k :| 0 <= k < |b| && b[k] == q;
      }
    }
  }
}
