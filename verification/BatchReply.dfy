/**
 A batch of jobs as one call: the jobs' parameters are concatenated, the handler works through a sorted array of
 references to them, the responses are encoded in the order of the parameters, and the reply is cut into one slice
 per job.
 */
module BatchReply {
  import opened Common
  import opened SerializedData

  // ------------------------------------------------------------------ jobs in a row

  function Sum(counts: seq<nat>): nat {
    if counts == [] then 0 else Sum(counts[..|counts| - 1]) + counts[|counts| - 1]
  }

  function Flatten<T>(jobs: seq<seq<T>>): seq<T> {
    if jobs == [] then [] else Flatten(jobs[..|jobs| - 1]) + jobs[|jobs| - 1]
  }

  function Counts<T>(jobs: seq<seq<T>>): (r: seq<nat>)
    ensures |r| == |jobs|
  {
    seq(|jobs|, i requires 0 <= i < |jobs| => |jobs[i]|)
  }

  lemma {:induction false} FlattenLength<T>(jobs: seq<seq<T>>)
    ensures |Flatten(jobs)| == Sum(Counts(jobs))
  {
    if jobs != [] {
      FlattenLength(jobs[..|jobs| - 1]);
      assert Counts(jobs)[..|jobs| - 1] == Counts(jobs[..|jobs| - 1]);
    }
  }

  /** A job's parameters stand together, in its own order, after those of the jobs before it. */
  lemma {:induction false} FlattenAt<T>(jobs: seq<seq<T>>, j: nat)
    requires j < |jobs|
    ensures var from := Sum(Counts(jobs)[..j]);
      from + |jobs[j]| <= |Flatten(jobs)| && Flatten(jobs)[from..from + |jobs[j]|] == jobs[j]
  {
    var n := |jobs| - 1;
    assert Counts(jobs)[..j] == Counts(jobs[..n])[..j];
    if j == n {
      FlattenLength(jobs[..n]);
      assert Counts(jobs[..n])[..j] == Counts(jobs[..n]);
    } else {
      FlattenAt(jobs[..n], j);
    }
  }

  // ------------------------------------------------------------------ the handler behind its references

  /** Every index once: the array of references, in whatever order the handler's sort has left it. */
  ghost predicate Permutation(order: seq<nat>, n: nat) {
    && |order| == n && (forall k :: 0 <= k < n ==> order[k] < n) && (forall i :: 0 <= i < n ==> i in order)
    && forall k, m :: 0 <= k < m < n ==> order[k] != order[m]
  }

  /** The handler answers through the references; each answer lands beside its own parameter. */
  method Process<P>(params: seq<P>, order: seq<nat>, answer: (nat, P) -> Bytes) returns (responses: seq<Bytes>)
    requires Permutation(order, |params|)
    ensures |responses| == |params|
    ensures forall k :: 0 <= k < |params| ==> responses[order[k]] == answer(k, params[order[k]])
  {
    responses := seq(|params|, _ => []);
    for k := 0 to |order|
      invariant |responses| == |params|
      invariant forall m :: 0 <= m < k ==> responses[order[m]] == answer(m, params[order[m]])
    {
      responses := responses[order[k] := answer(k, params[order[k]])];
    }
  }

  // ------------------------------------------------------------------ cutting the reply

  /** The bytes of a stretch of items. */
  function Stretch(items: seq<Bytes>, from: nat, to: nat): Bytes
    requires Framable(items) && from <= to <= |items|
  {
    Encode(items[from..to])
  }

  lemma StretchJoin(items: seq<Bytes>, from: nat, mid: nat, to: nat)
    requires Framable(items) && from <= mid <= to <= |items|
    ensures Stretch(items, from, to) == Stretch(items, from, mid) + Stretch(items, mid, to)
  {
    assert items[from..to] == items[from..mid] + items[mid..to];
    EncodeConcat(items[from..mid], items[mid..to]);
  }

  /** A stretch of items in the whole: where it starts, its size, and its bytes. */
  lemma StretchAt(items: seq<Bytes>, from: nat, n: nat)
    requires Framable(items) && from + n <= |items|
    ensures var p, slice, whole := |Stretch(items, 0, from)|, Stretch(items, from, from + n), Stretch(items, 0, |items|);
      && p % ALIGNMENT == 0 && p + |slice| <= |whole| && whole[p..p + |slice|] == slice
      && ItemsSize(whole, p, n) == Some(|slice|) && Stretch(items, 0, from + n) == Stretch(items, 0, from) + slice
  {
    StretchJoin(items, 0, from, from + n);
    StretchJoin(items, 0, from + n, |items|);
    EncodeAligned(items[0..from]);
    var whole, p := Stretch(items, 0, |items|), |Stretch(items, 0, from)|;
    var slice := Stretch(items, from, from + n);
    assert whole[p..p + |slice|] == slice;
    ItemsSizeOfFrames(whole, p, items[from..from + n]);
  }

  /** The slice of the j-th job. */
  ghost predicate SliceOf(items: seq<Bytes>, counts: seq<nat>, j: nat, slice: Bytes)
    requires Framable(items) && j < |counts|
  {
    var from := Sum(counts[..j]); from + counts[j] <= |items| && slice == Stretch(items, from, from + counts[j])
  }

  /** The slices cut so far and where the next one starts. */
  datatype Cut = Cut(slices: seq<Bytes>, p: nat)

  /** One slice per count, one after the other; None when the reply does not hold that many items. */
  function CutAll(reply: Bytes, counts: seq<nat>): (r: Option<Cut>)
    ensures r.Some? ==> |r.value.slices| == |counts|
  {
    if counts == [] then Some(Cut([], 0))
    else
      var before := CutAll(reply, counts[..|counts| - 1]);
      if before.None? then None else CutOne(reply, before.value, counts[|counts| - 1])
  }

  function CutOne(reply: Bytes, c: Cut, count: nat): Option<Cut> {
    var size := if c.p % ALIGNMENT != 0 then None else ItemsSize(reply, c.p, count);
    if size.None? || c.p + size.value > |reply| then None
    else Some(Cut(c.slices + [reply[c.p..c.p + size.value]], c.p + size.value))
  }

  lemma {:induction false} CutFails(reply: Bytes, counts: seq<nat>, j: nat)
    requires j <= |counts| && CutAll(reply, counts[..j]).None?
    ensures CutAll(reply, counts).None?
    decreases |counts|
  {
    if j < |counts| {
      assert counts[..|counts| - 1][..j] == counts[..j];
      CutFails(reply, counts[..|counts| - 1], j);
    } else {
      assert counts[..j] == counts;
    }
  }

  lemma CutNext(reply: Bytes, counts: seq<nat>, j: nat)
    requires j < |counts| && CutAll(reply, counts[..j]).Some?
    ensures CutAll(reply, counts[..j + 1]) == CutOne(reply, CutAll(reply, counts[..j]).value, counts[j])
  {
    assert counts[..j + 1][..j] == counts[..j];
  }

  /** The next job's slice. */
  method TakeSlice(reply: Bytes, c: Cut, count: nat, beyond: nat -> nat) returns (r: Option<Cut>)
    requires |reply| % ALIGNMENT == 0 && |reply| < TWO_32 - 1
    ensures r == CutOne(reply, c, count)
  {
    var size := NextSeveralItemSize(reply, c.p, count, beyond);
    if size == CORRUPT || c.p + size > |reply| {
      return None;
    }
    r := Some(Cut(c.slices + [reply[c.p..c.p + size]], c.p + size));
  }

  /** The loop that hands every job its slice; a reply that does not hold enough items is reported as corrupt. */
  method SplitReply(reply: Bytes, counts: seq<nat>, beyond: nat -> nat) returns (ok: bool, slices: seq<Bytes>)
    requires |reply| % ALIGNMENT == 0 && |reply| < TWO_32 - 1
    ensures ok <==> CutAll(reply, counts).Some?
    ensures ok ==> slices == CutAll(reply, counts).value.slices
  {
    var c := Cut([], 0);
    for j := 0 to |counts|
      invariant CutAll(reply, counts[..j]) == Some(c)
    {
      CutNext(reply, counts, j);
      var r := TakeSlice(reply, c, counts[j], beyond);
      if r.None? {
        CutFails(reply, counts, j + 1);
        return false, [];
      }
      c := r.value;
    }
    ok, slices := true, c.slices;
    assert counts[..|counts|] == counts;
  }

  /** What the slices should be: each holds the frames of its own items, and together they are the reply so far. */
  ghost predicate CutOk(items: seq<Bytes>, counts: seq<nat>, c: Cut)
    requires Framable(items) && Sum(counts) <= |items|
  {
    && c.p == |Stretch(items, 0, Sum(counts))| && Flatten(c.slices) == Stretch(items, 0, Sum(counts))
    && SlicesOk(items, counts, c.slices)
  }

  lemma CutMore(items: seq<Bytes>, counts: seq<nat>, b: Cut)
    requires Framable(items) && Sum(counts) <= |items| && counts != [] && CutOk(items, counts[..|counts| - 1], b)
    ensures var slice := Stretch(items, Sum(counts[..|counts| - 1]), Sum(counts));
      CutOk(items, counts, Cut(b.slices + [slice], |Stretch(items, 0, Sum(counts))|))
  {
    var from := Sum(counts[..|counts| - 1]);
    var slice := Stretch(items, from, Sum(counts));
    FlattenMore(b.slices, slice);
    StretchJoin(items, 0, from, Sum(counts));
    SlicesMore(items, counts, b.slices, slice);
  }

  lemma CutExtend(items: seq<Bytes>, counts: seq<nat>, b: Cut) returns (c: Cut)
    requires Framable(items) && Sum(counts) <= |items| && counts != [] && CutOk(items, counts[..|counts| - 1], b)
    ensures CutOne(Stretch(items, 0, |items|), b, counts[|counts| - 1]) == Some(c) && CutOk(items, counts, c)
  {
    var from := Sum(counts[..|counts| - 1]);
    CutStep(items, b, from, counts[|counts| - 1]);
    CutMore(items, counts, b);
    c := Cut(b.slices + [Stretch(items, from, Sum(counts))], |Stretch(items, 0, Sum(counts))|);
  }

  /** On a reply that frames one item per count, the loop succeeds and cuts exactly there. */
  lemma {:induction false} CutFrames(items: seq<Bytes>, counts: seq<nat>) returns (c: Cut)
    requires Framable(items) && Sum(counts) <= |items|
    ensures CutAll(Stretch(items, 0, |items|), counts) == Some(c) && CutOk(items, counts, c)
  {
    if counts == [] {
      c := Cut([], 0);
    } else {
      var b := CutFrames(items, counts[..|counts| - 1]);
      c := CutExtend(items, counts, b);
    }
  }

  ghost predicate SlicesOk(items: seq<Bytes>, counts: seq<nat>, slices: seq<Bytes>)
    requires Framable(items)
  {
    |slices| == |counts| && forall j :: 0 <= j < |counts| ==> SliceOf(items, counts, j, slices[j])
  }

  lemma SlicesMore(items: seq<Bytes>, counts: seq<nat>, slices: seq<Bytes>, slice: Bytes)
    requires Framable(items) && counts != [] && SlicesOk(items, counts[..|counts| - 1], slices)
    requires SliceOf(items, counts, |counts| - 1, slice)
    ensures SlicesOk(items, counts, slices + [slice])
  {
    var front, more := counts[..|counts| - 1], slices + [slice];
    forall j | 0 <= j < |front| ensures SliceOf(items, counts, j, more[j]) {
      assert counts[..j] == front[..j];
      assert SliceOf(items, front, j, slices[j]);
    }
  }

  lemma CutStep(items: seq<Bytes>, c: Cut, from: nat, count: nat)
    requires Framable(items) && from + count <= |items| && c.p == |Stretch(items, 0, from)|
    ensures CutOne(Stretch(items, 0, |items|), c, count) ==
            Some(Cut(c.slices + [Stretch(items, from, from + count)], |Stretch(items, 0, from + count)|))
  {
    StretchAt(items, from, count);
  }

  lemma FlattenMore<T>(parts: seq<seq<T>>, part: seq<T>)
    ensures Flatten(parts + [part]) == Flatten(parts) + part
  {
    assert (parts + [part])[..|parts|] == parts;
  }

  // ------------------------------------------------------------------ the whole call

  /** Every job receives exactly the answers to its own parameters, in its own order, however the handler sorted
      the batch; together the slices are the reply. */
  method RunBatch<P>(jobs: seq<seq<P>>, order: seq<nat>, answer: (nat, P) -> Bytes, beyond: nat -> nat)
    returns (ok: bool, slices: seq<Bytes>, responses: seq<Bytes>)
    requires Permutation(order, |Flatten(jobs)|)
    requires forall k: nat, x :: x in Flatten(jobs) ==> |answer(k, x)| % ALIGNMENT == 0 && |answer(k, x)| < TWO_32
    ensures |responses| == |Flatten(jobs)| && Framable(responses)
    ensures forall k :: 0 <= k < |order| ==> responses[order[k]] == answer(k, Flatten(jobs)[order[k]])
    ensures |Encode(responses)| < TWO_32 - 1 ==>
      ok && |slices| == |jobs| && Flatten(slices) == Encode(responses)
      && SlicesOk(responses, Counts(jobs), slices)
  {
    responses := Process(Flatten(jobs), order, answer);
    forall i | 0 <= i < |responses| ensures |responses[i]| < TWO_32 && |responses[i]| % ALIGNMENT == 0 {
      assert i in order;
      var k :| 0 <= k < |order| && order[k] == i;
      assert responses[i] == answer(k, Flatten(jobs)[i]) && Flatten(jobs)[i] in Flatten(jobs);
    }
    FlattenLength(jobs);
    var reply := Encode(responses);
    EncodeAligned(responses);
    if |reply| < TWO_32 - 1 {
      assert responses[0..|responses|] == responses;
      ghost var c := CutFrames(responses, Counts(jobs));
      ok, slices := SplitReply(reply, Counts(jobs), beyond);
    } else {
      ok, slices := false, [];
    }
  }

  /** The item at a job's own place in the reply answers that job's own parameter. */
  lemma OwnAnswer<P>(jobs: seq<seq<P>>, order: seq<nat>, answer: (nat, P) -> Bytes, responses: seq<Bytes>, j: nat, i: nat)
    returns (k: nat)
    requires Permutation(order, |Flatten(jobs)|) && |responses| == |Flatten(jobs)|
    requires forall m :: 0 <= m < |order| ==> responses[order[m]] == answer(m, Flatten(jobs)[order[m]])
    requires j < |jobs| && i < |jobs[j]|
    ensures var from := Sum(Counts(jobs)[..j]);
      k < |order| && order[k] == from + i < |responses| && responses[from + i] == answer(k, jobs[j][i])
  {
    var from := Sum(Counts(jobs)[..j]);
    FlattenAt(jobs, j);
    assert Flatten(jobs)[from..from + |jobs[j]|][i] == Flatten(jobs)[from + i];
    assert from + i in order;
    k :| 0 <= k < |order| && order[k] == from + i;
  }

  ghost predicate AllFramable(jobs: seq<seq<Bytes>>) {
    forall j :: 0 <= j < |jobs| ==> Framable(jobs[j])
  }

  /** The concatenated attachments of the jobs are the frames of all their parameters in a row. */
  lemma {:induction false} AttachmentsInARow(jobs: seq<seq<Bytes>>, attachments: seq<Bytes>)
    requires AllFramable(jobs) && |attachments| == |jobs|
    requires forall j :: 0 <= j < |jobs| ==> attachments[j] == Encode(jobs[j])
    ensures Framable(Flatten(jobs)) && Flatten(attachments) == Encode(Flatten(jobs))
  {
    if jobs != [] {
      var n := |jobs| - 1;
      AttachmentsInARow(jobs[..n], attachments[..n]);
      EncodeConcat(Flatten(jobs[..n]), jobs[n]);
    }
  }
}
