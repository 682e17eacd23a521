/**
 * Programs over many `unsure_ownership_ptr` handles at once. A pool is the
 * list of the words of the live handles together with the log of freed
 * addresses; each statement of a client program is one operation of the
 * class applied to handles named by their position in the pool. The
 * theorems below are the promises of the type over a whole program: in any
 * program, no address is freed more often than it was handed over as
 * owned, so a referent that was only borrowed is never freed; and in
 * programs whose owned hand-overs are aligned, an owned referent is, at any
 * moment, freed, answered for by live handles, or handed back to a caller
 * by `release`, as often as it was handed over.
 */
module Handles {
  import opened Codec
  import opened Lifecycle

  /** One statement of a client program. Positions name live handles. */
  datatype Op =
      /** `unsure_ownership_ptr()` */
    | MakeEmpty
      /** `unsure_ownership_ptr(is_owned, p)` */
    | MakeTagged(isOwned: bool, address: Word)
      /** `unsure_ownership_ptr(unique_ptr&&)`, adopting the raw word */
    | MakeFromUnique(raw: Word)
      /** move construction from the handle at `src` */
    | MakeMoved(src: nat)
      /** move assignment, also `reset(unsure_ownership_ptr&&)` */
    | Assign(dst: nat, src: nat)
      /** `reset(unique_ptr&&)` with an owning pointer, possibly empty */
    | ResetUnique(dst: nat, raw: Word)
      /** `reset(is_owned, p)` */
    | ResetTagged(dst: nat, isOwned: bool, address: Word)
      /** `reset()` */
    | ResetEmpty(dst: nat)
      /** `release()` */
    | Release(dst: nat)
      /** `swap` */
    | Swap(dst: nat, src: nat)
      /** end of the handle's lifetime: the destructor */
    | Destroy(dst: nat)

  /** The words of the live handles, oldest first, and the free store's log. */
  datatype Pool = Pool(words: seq<Word>, freed: multiset<Word>)

  /** A program that has not started: no handle, nothing freed. */
  const Start := Pool([], multiset{})

  /** Every position the statement names is a live handle. */
  predicate Enabled(p: Pool, op: Op) {
    match op
    case MakeMoved(src) => src < |p.words|
    case Assign(dst, src) => dst < |p.words| && src < |p.words|
    case ResetUnique(dst, _) => dst < |p.words|
    case ResetTagged(dst, _, _) => dst < |p.words|
    case ResetEmpty(dst) => dst < |p.words|
    case Release(dst) => dst < |p.words|
    case Swap(dst, src) => dst < |p.words| && src < |p.words|
    case Destroy(dst) => dst < |p.words|
    case _ => true
  }

  /** The effect of one statement, as the class's methods state it: new
      handles are appended, a destroyed handle leaves the pool, and what a
      method deletes is added to the log. */
  function Step(p: Pool, op: Op): (q: Pool)
    requires Enabled(p, op)
    ensures |q.words| == match op
      case MakeEmpty => |p.words| + 1
      case MakeTagged(_, _) => |p.words| + 1
      case MakeFromUnique(_) => |p.words| + 1
      case MakeMoved(_) => |p.words| + 1
      case Destroy(_) => |p.words| - 1
      case _ => |p.words|
  {
    var ws := p.words;
    match op
    case MakeEmpty => Pool(ws + [Null], p.freed)
    case MakeTagged(isOwned, address) => Pool(ws + [Zip(isOwned, address)], p.freed)
    case MakeFromUnique(raw) => Pool(ws + [raw], p.freed)
    case MakeMoved(src) => Pool(ws[src := Null] + [ws[src]], p.freed)
    case Assign(dst, src) =>
      if dst == src then
        Pool(ws[dst := if HasOwnership(ws[dst]) then ws[dst] else Null], p.freed)
      else
        Pool(ws[dst := ws[src]][src := Null], p.freed + Responsible(ws[dst]))
    case ResetUnique(dst, raw) => Pool(ws[dst := raw], p.freed + Responsible(ws[dst]))
    case ResetTagged(dst, isOwned, address) =>
      Pool(ws[dst := Zip(isOwned, address)], p.freed + Responsible(ws[dst]))
    case ResetEmpty(dst) => Pool(ws[dst := Null], p.freed + Responsible(ws[dst]))
    case Release(dst) => Pool(ws[dst := Null], p.freed)
    case Swap(dst, src) => Pool(ws[dst := ws[src]][src := ws[dst]], p.freed)
    case Destroy(dst) => Pool(ws[..dst] + ws[dst + 1..], p.freed + Responsible(ws[dst]))
  }

  /** The referent a statement hands over as owned, as its caller means it:
      the address of an owned `(true, p)` pair or of an owning pointer. */
  function Handed(op: Op): multiset<Word> {
    match op
    case MakeTagged(isOwned, address) => if isOwned then Deleted(address) else multiset{}
    case MakeFromUnique(raw) => Deleted(raw)
    case ResetUnique(_, raw) => Deleted(raw)
    case ResetTagged(_, isOwned, address) => if isOwned then Deleted(address) else multiset{}
    case _ => multiset{}
  }

  /** The referent `release` hands back to its caller, who must free it. */
  function Returned(p: Pool, op: Op): multiset<Word>
    requires Enabled(p, op)
  {
    match op
    case Release(dst) => Responsible(p.words[dst])
    case _ => multiset{}
  }

  /** An address handed over as owned has bit 0 clear, so the flag fits. */
  predicate OwnedAligned(op: Op) {
    match op
    case MakeTagged(isOwned, address) => isOwned ==> Aligned(address)
    case MakeFromUnique(raw) => Aligned(raw)
    case ResetUnique(_, raw) => Aligned(raw)
    case ResetTagged(_, isOwned, address) => isOwned ==> Aligned(address)
    case _ => true
  }

  /** The sum of `charge` over the words. */
  function Total(ws: seq<Word>, charge: Word -> multiset<Word>): multiset<Word> {
    if ws == [] then multiset{} else charge(ws[0]) + Total(ws[1..], charge)
  }

  /** What the live handles are responsible for, all together. */
  function Outstanding(ws: seq<Word>): multiset<Word> {
    Total(ws, Responsible)
  }

  // The books are kept address by address: `m[x]` is how many times the
  // multiset `m` holds the address `x`.

  lemma {:induction false} TotalAppend(ws: seq<Word>, w: Word, charge: Word -> multiset<Word>, x: Word)
    ensures Total(ws + [w], charge)[x] == Total(ws, charge)[x] + charge(w)[x]
  {
    if ws != [] {
      assert (ws + [w])[0] == ws[0];
      assert (ws + [w])[1..] == ws[1..] + [w];
      TotalAppend(ws[1..], w, charge, x);
    }
  }

  lemma {:induction false} TotalUpdate(ws: seq<Word>, i: nat, w: Word, charge: Word -> multiset<Word>, x: Word)
    requires i < |ws|
    ensures Total(ws[i := w], charge)[x] + charge(ws[i])[x] == Total(ws, charge)[x] + charge(w)[x]
  {
    var vs := ws[i := w];
    if i > 0 {
      assert vs[0] == ws[0];
      assert vs[1..] == ws[1..][i - 1 := w];
      assert ws[1..][i - 1] == ws[i];
      TotalUpdate(ws[1..], i - 1, w, charge, x);
    } else {
      assert vs[1..] == ws[1..];
    }
  }

  lemma {:induction false} TotalRemove(ws: seq<Word>, i: nat, charge: Word -> multiset<Word>, x: Word)
    requires i < |ws|
    ensures Total(ws[..i] + ws[i + 1..], charge)[x] + charge(ws[i])[x] == Total(ws, charge)[x]
  {
    var vs := ws[..i] + ws[i + 1..];
    if i > 0 {
      assert vs[0] == ws[0];
      assert vs[1..] == ws[1..][..i - 1] + ws[1..][i..];
      assert ws[1..][i - 1] == ws[i];
      TotalRemove(ws[1..], i - 1, charge, x);
    } else {
      assert vs == ws[1..];
    }
  }

  /** A word made from an aligned owned hand-over answers for exactly what
      was handed over; a borrowed one for nothing. */
  lemma HandedIsResponsible(isOwned: bool, address: Word)
    requires isOwned ==> Aligned(address)
    ensures Responsible(Zip(isOwned, address)) == if isOwned then Deleted(address) else multiset{}
  {
    if isOwned {
      RoundTrip(true, address);
    }
  }

  // The books of one statement, one kind of statement at a time.

  lemma MakeConserves(p: Pool, op: Op, x: Word)
    requires (op.MakeEmpty? || op.MakeTagged? || op.MakeFromUnique?) && OwnedAligned(op)
    ensures Step(p, op).freed[x] + Outstanding(Step(p, op).words)[x] + Returned(p, op)[x]
         == p.freed[x] + Outstanding(p.words)[x] + Handed(op)[x]
  {
    var w := match op
      case MakeTagged(isOwned, address) => Zip(isOwned, address)
      case MakeFromUnique(raw) => raw
      case _ => Null;
    assert Step(p, op).words == p.words + [w];
    TotalAppend(p.words, w, Responsible, x);
    if op.MakeTagged? {
      HandedIsResponsible(op.isOwned, op.address);
    } else {
      NullOwnsNothing(true);
    }
  }

  lemma MovedConserves(p: Pool, src: nat, x: Word)
    requires src < |p.words|
    ensures Step(p, MakeMoved(src)).freed[x] + Outstanding(Step(p, MakeMoved(src)).words)[x]
         == p.freed[x] + Outstanding(p.words)[x]
  {
    var ws := p.words;
    NullOwnsNothing(true);
    TotalAppend(ws[src := Null], ws[src], Responsible, x);
    TotalUpdate(ws, src, Null, Responsible, x);
  }

  lemma AssignConserves(p: Pool, dst: nat, src: nat, x: Word)
    requires dst < |p.words| && src < |p.words|
    ensures Step(p, Assign(dst, src)).freed[x] + Outstanding(Step(p, Assign(dst, src)).words)[x]
         == p.freed[x] + Outstanding(p.words)[x]
  {
    var ws := p.words;
    NullOwnsNothing(true);
    if dst == src {
      TotalUpdate(ws, dst, if HasOwnership(ws[dst]) then ws[dst] else Null, Responsible, x);
    } else {
      var vs := ws[dst := ws[src]];
      TotalUpdate(ws, dst, ws[src], Responsible, x);
      TotalUpdate(vs, src, Null, Responsible, x);
      assert vs[src] == ws[src];
    }
  }

  lemma ResetConserves(p: Pool, op: Op, x: Word)
    requires (op.ResetUnique? || op.ResetTagged? || op.ResetEmpty?) && op.dst < |p.words| && OwnedAligned(op)
    ensures Step(p, op).freed[x] + Outstanding(Step(p, op).words)[x] + Returned(p, op)[x]
         == p.freed[x] + Outstanding(p.words)[x] + Handed(op)[x]
  {
    var w := match op
      case ResetTagged(_, isOwned, address) => Zip(isOwned, address)
      case ResetUnique(_, raw) => raw
      case _ => Null;
    assert Step(p, op) == Pool(p.words[op.dst := w], p.freed + Responsible(p.words[op.dst]));
    TotalUpdate(p.words, op.dst, w, Responsible, x);
    if op.ResetTagged? {
      HandedIsResponsible(op.isOwned, op.address);
    } else {
      NullOwnsNothing(true);
    }
  }

  lemma ReleaseConserves(p: Pool, dst: nat, x: Word)
    requires dst < |p.words|
    ensures Step(p, Release(dst)).freed[x] + Outstanding(Step(p, Release(dst)).words)[x]
            + Returned(p, Release(dst))[x]
         == p.freed[x] + Outstanding(p.words)[x]
  {
    NullOwnsNothing(true);
    TotalUpdate(p.words, dst, Null, Responsible, x);
  }

  lemma SwapConserves(p: Pool, dst: nat, src: nat, x: Word)
    requires dst < |p.words| && src < |p.words|
    ensures Step(p, Swap(dst, src)).freed[x] + Outstanding(Step(p, Swap(dst, src)).words)[x]
         == p.freed[x] + Outstanding(p.words)[x]
  {
    var ws := p.words;
    var vs := ws[dst := ws[src]];
    TotalUpdate(ws, dst, ws[src], Responsible, x);
    TotalUpdate(vs, src, ws[dst], Responsible, x);
    assert vs[src] == ws[src];
  }

  lemma DestroyConserves(p: Pool, dst: nat, x: Word)
    requires dst < |p.words|
    ensures Step(p, Destroy(dst)).freed[x] + Outstanding(Step(p, Destroy(dst)).words)[x]
         == p.freed[x] + Outstanding(p.words)[x]
  {
    TotalRemove(p.words, dst, Responsible, x);
  }

  /** One statement keeps the books of every address `x`: how often it was
      freed, how many live handles answer for it and how often `release`
      handed it back grow together by exactly how often the statement
      handed it over as owned. */
  lemma StepConserves(p: Pool, op: Op, x: Word)
    requires Enabled(p, op) && OwnedAligned(op)
    ensures Step(p, op).freed[x] + Outstanding(Step(p, op).words)[x] + Returned(p, op)[x]
         == p.freed[x] + Outstanding(p.words)[x] + Handed(op)[x]
  {
    match op
    case MakeEmpty => MakeConserves(p, op, x);
    case MakeTagged(_, _) => MakeConserves(p, op, x);
    case MakeFromUnique(_) => MakeConserves(p, op, x);
    case MakeMoved(src) => MovedConserves(p, src, x);
    case Assign(dst, src) => AssignConserves(p, dst, src, x);
    case ResetUnique(_, _) => ResetConserves(p, op, x);
    case ResetTagged(_, _, _) => ResetConserves(p, op, x);
    case ResetEmpty(_) => ResetConserves(p, op, x);
    case Release(dst) => ReleaseConserves(p, dst, x);
    case Swap(dst, src) => SwapConserves(p, dst, src, x);
    case Destroy(dst) => DestroyConserves(p, dst, x);
  }

  /** A statement frees only what some live handle answered for, so it
      never frees a borrowed referent, and never frees an address more
      often than live handles answered for it. */
  lemma StepFreesOnlyOwned(p: Pool, op: Op, x: Word)
    requires Enabled(p, op)
    ensures p.freed[x] <= Step(p, op).freed[x] <= p.freed[x] + Outstanding(p.words)[x]
  {
    var ws := p.words;
    NullOwnsNothing(true);
    match op
    case Assign(dst, src) =>
      TotalUpdate(ws, dst, Null, Responsible, x);
    case ResetUnique(dst, _) =>
      TotalUpdate(ws, dst, Null, Responsible, x);
    case ResetTagged(dst, _, _) =>
      TotalUpdate(ws, dst, Null, Responsible, x);
    case ResetEmpty(dst) =>
      TotalUpdate(ws, dst, Null, Responsible, x);
    case Destroy(dst) =>
      TotalRemove(ws, dst, Responsible, x);
    case _ =>
  }

  /** The program can run from `p` to the end. */
  predicate Runs(p: Pool, ops: seq<Op>)
    decreases |ops|
  {
    ops == [] || (Enabled(p, ops[0]) && Runs(Step(p, ops[0]), ops[1..]))
  }

  /** The pool after running the whole program. */
  function Run(p: Pool, ops: seq<Op>): Pool
    requires Runs(p, ops)
    decreases |ops|
  {
    if ops == [] then p else Run(Step(p, ops[0]), ops[1..])
  }

  /** Everything the program handed over as owned. */
  function HandedBy(ops: seq<Op>): multiset<Word> {
    if ops == [] then multiset{} else Handed(ops[0]) + HandedBy(ops[1..])
  }

  /** Everything `release` handed back to the program. */
  function ReturnedBy(p: Pool, ops: seq<Op>): multiset<Word>
    requires Runs(p, ops)
    decreases |ops|
  {
    if ops == [] then multiset{} else Returned(p, ops[0]) + ReturnedBy(Step(p, ops[0]), ops[1..])
  }

  /** Every owned hand-over of the program is aligned. */
  predicate AllOwnedAligned(ops: seq<Op>) {
    forall k :: 0 <= k < |ops| ==> OwnedAligned(ops[k])
  }

  /** Conservation over a whole program, address by address: how often
      `x` was freed, how many live handles answer for it and how often it
      was handed back by `release` add up to the same at the end as at the
      start plus how often the program handed it over as owned. */
  lemma {:induction false} ConservationAt(p: Pool, ops: seq<Op>, x: Word)
    requires Runs(p, ops) && AllOwnedAligned(ops)
    ensures Run(p, ops).freed[x] + Outstanding(Run(p, ops).words)[x] + ReturnedBy(p, ops)[x]
         == p.freed[x] + Outstanding(p.words)[x] + HandedBy(ops)[x]
    decreases |ops|
  {
    if ops != [] {
      assert OwnedAligned(ops[0]);
      StepConserves(p, ops[0], x);
      assert AllOwnedAligned(ops[1..]) by {
        forall k | 0 <= k < |ops[1..]| ensures OwnedAligned(ops[1..][k]) {
          assert ops[1..][k] == ops[k + 1];
        }
      }
      ConservationAt(Step(p, ops[0]), ops[1..], x);
    }
  }

  /** Conservation over a whole program: the referents freed, those the
      live handles answer for and those handed back by `release` are,
      together, those there at the start plus those the program handed
      over as owned. */
  lemma Conservation(p: Pool, ops: seq<Op>)
    requires Runs(p, ops) && AllOwnedAligned(ops)
    ensures Run(p, ops).freed + Outstanding(Run(p, ops).words) + ReturnedBy(p, ops)
         == p.freed + Outstanding(p.words) + HandedBy(ops)
  {
    forall x
      ensures (Run(p, ops).freed + Outstanding(Run(p, ops).words) + ReturnedBy(p, ops))[x]
           == (p.freed + Outstanding(p.words) + HandedBy(ops))[x]
    {
      ConservationAt(p, ops, x);
    }
  }

  /** Whatever a word made from a hand-over answers for was handed over:
      all of it when the address is aligned, nothing when the address is
      odd, because an odd word reads as borrowed. */
  lemma HandedBounds(isOwned: bool, address: Word, x: Word)
    ensures Responsible(Zip(isOwned, address))[x]
         <= (if isOwned then Deleted(address) else multiset{})[x]
    ensures isOwned && Aligned(address) ==> Responsible(Zip(isOwned, address)) == Deleted(address)
    ensures !Aligned(address) ==> Responsible(Zip(isOwned, address)) == multiset{}
  {
    if !isOwned {
      BorrowedOwnsNothing(address);
    } else if Aligned(address) {
      RoundTrip(true, address);
    } else {
      MisalignedAddress(true, address);
    }
  }

  /** One statement, whatever it is handed, never adds to the books of an
      address more than it handed over as owned: an odd owned hand-over
      only leaks, it is never freed. */
  lemma StepBounded(p: Pool, op: Op, x: Word)
    requires Enabled(p, op)
    ensures Step(p, op).freed[x] + Outstanding(Step(p, op).words)[x] + Returned(p, op)[x]
         <= p.freed[x] + Outstanding(p.words)[x] + Handed(op)[x]
  {
    match op
    case MakeTagged(isOwned, address) =>
      assert Step(p, op).words == p.words + [Zip(isOwned, address)];
      TotalAppend(p.words, Zip(isOwned, address), Responsible, x);
      HandedBounds(isOwned, address, x);
    case MakeFromUnique(raw) =>
      assert Step(p, op).words == p.words + [raw];
      TotalAppend(p.words, raw, Responsible, x);
    case ResetUnique(dst, raw) =>
      TotalUpdate(p.words, dst, raw, Responsible, x);
    case ResetTagged(dst, isOwned, address) =>
      TotalUpdate(p.words, dst, Zip(isOwned, address), Responsible, x);
      HandedBounds(isOwned, address, x);
    case _ =>
      StepConserves(p, op, x);
  }

  /** The bound of `StepBounded` over a whole program, with no condition on
      the addresses it hands over. */
  lemma {:induction false} RunBounded(p: Pool, ops: seq<Op>, x: Word)
    requires Runs(p, ops)
    ensures Run(p, ops).freed[x] + Outstanding(Run(p, ops).words)[x] + ReturnedBy(p, ops)[x]
         <= p.freed[x] + Outstanding(p.words)[x] + HandedBy(ops)[x]
    decreases |ops|
  {
    if ops != [] {
      StepBounded(p, ops[0], x);
      RunBounded(Step(p, ops[0]), ops[1..], x);
    }
  }

  /** Never free a borrowed referent, and never free an address more often
      than it was handed over as owned: from the start, in any program, the
      bound holds address by address, so an address only ever lent is
      never freed. */
  lemma NoFreeBeyondOwnership(ops: seq<Op>, x: Word)
    requires Runs(Start, ops)
    ensures Run(Start, ops).freed[x] <= HandedBy(ops)[x]
    ensures x !in HandedBy(ops) ==> x !in Run(Start, ops).freed
  {
    assert Outstanding(Start.words) == multiset{};
    RunBounded(Start, ops, x);
  }

  /** Free an owned referent exactly once: once every handle is gone, each
      referent handed over as owned was either freed or handed back to a
      caller by `release`, as often as it was handed over. */
  lemma FreedExactlyOnce(ops: seq<Op>)
    requires Runs(Start, ops) && AllOwnedAligned(ops)
    requires Run(Start, ops).words == []
    ensures Run(Start, ops).freed + ReturnedBy(Start, ops) == HandedBy(ops)
  {
    assert Outstanding(Start.words) == multiset{};
    assert Outstanding(Run(Start, ops).words) == multiset{};
    forall x ensures (Run(Start, ops).freed + ReturnedBy(Start, ops))[x] == HandedBy(ops)[x] {
      ConservationAt(Start, ops, x);
    }
  }

  /** The alignment requirement is needed: any odd address handed over as
      owned reads back as borrowed one byte lower, and destroying the handle
      frees nothing, so the referent leaks. */
  lemma OddOwnedAddressLeaks(address: Word)
    requires !Aligned(address)
    ensures Runs(Start, [MakeTagged(true, address), Destroy(0)])
    ensures Unzip(Step(Start, MakeTagged(true, address)).words[0]) == address - 1
    ensures HandedBy([MakeTagged(true, address), Destroy(0)]) == multiset{address}
    ensures Run(Start, [MakeTagged(true, address), Destroy(0)]).freed == multiset{}
  {
    var ops := [MakeTagged(true, address), Destroy(0)];
    var p1 := Step(Start, ops[0]);
    MisalignedAddress(true, address);
    assert p1.words == [address];
    assert Responsible(address) == multiset{};
    assert ops[1..] == [Destroy(0)];
    assert ops[1..][1..] == [];
    assert HandedBy(ops[1..][1..]) == multiset{};
    var p2 := Step(p1, Destroy(0));
    assert p2.freed == multiset{};
    assert Run(p1, ops[1..]) == Run(p2, []) == p2;
  }

  /** The demonstration program's two kinds of handle: a borrowed handle
      on a long-lived string is destroyed and frees nothing; a handle
      adopting a fresh owned string is destroyed and frees it, once. */
  lemma BorrowedThenOwned(lent: Word, owned: Word)
    requires Aligned(owned) && owned != Null
    ensures Step(Step(Start, MakeTagged(false, lent)), Destroy(0)) == Start
    ensures Step(Step(Start, MakeFromUnique(owned)), Destroy(0)) == Pool([], multiset{owned})
  {
    BorrowedOwnsNothing(lent);
    assert Step(Start, MakeTagged(false, lent)).words == [Zip(false, lent)];
    assert Step(Start, MakeFromUnique(owned)).words == [owned];
  }

  /** `reset(false, p)` on a handle that owned `q` frees `q` once and
      nothing else; the handle then yields `p`, borrowed. */
  lemma ResetToBorrowed(q: Word, p: Word)
    requires Aligned(q) && q != Null && Aligned(p)
    ensures Step(Step(Start, MakeFromUnique(q)), ResetTagged(0, false, p)) == Pool([Zip(false, p)], multiset{q})
    ensures Unzip(Zip(false, p)) == p && !HasOwnership(Zip(false, p))
  {
    RoundTrip(false, p);
    assert Step(Start, MakeFromUnique(q)).words == [q];
  }

  /** The words held by a list of handle objects, in order. */
  function Words(hs: seq<UnsureOwnershipPtr>): (ws: seq<Word>)
    reads set h | h in hs
    ensures |ws| == |hs|
    ensures forall i :: 0 <= i < |hs| ==> ws[i] == hs[i].pointer
  {
    seq(|hs|, i requires 0 <= i < |hs| reads hs => hs[i].pointer)
  }

  /** No handle object appears twice in the list. */
  predicate Distinct(hs: seq<UnsureOwnershipPtr>) {
    forall i, j :: 0 <= i < j < |hs| ==> hs[i] != hs[j]
  }

  /** Runs one statement on live handle objects by calling the class's own
      operations. The words left in the handles and the free store's log
      are exactly those `Step` gives, so the theorems above hold of the
      class. `release` also hands its address back. */
  method Execute(hs: seq<UnsureOwnershipPtr>, store: FreeStore, op: Op)
    returns (live: seq<UnsureOwnershipPtr>, released: Word)
    requires Distinct(hs) && Enabled(Pool(Words(hs), store.freed), op)
    modifies (set h | h in hs), store
    ensures Distinct(live)
    ensures Pool(Words(live), store.freed) == Step(old(Pool(Words(hs), store.freed)), op)
    ensures op.Release? ==> released == Unzip(old(hs[op.dst].pointer))
  {
    live, released := hs, Null;
    if op.MakeEmpty? || op.MakeTagged? || op.MakeFromUnique? || op.MakeMoved? {
      live := ExecuteMake(hs, op);
    } else if op.Assign? && op.dst == op.src {
      ExecuteSelfAssign(hs, store, op.dst);
    } else if op.Assign? {
      ExecuteAssign(hs, store, op.dst, op.src);
    } else if op.ResetUnique? || op.ResetTagged? || op.ResetEmpty? {
      ExecuteReset(hs, store, op);
    } else if op.Release? {
      released := ExecuteRelease(hs, op.dst);
    } else if op.Swap? {
      ExecuteSwap(hs, op.dst, op.src);
    } else {
      live := ExecuteDestroy(hs, store, op.dst);
    }
  }

  /** A constructor: the new handle joins the pool last. */
  method ExecuteMake(hs: seq<UnsureOwnershipPtr>, op: Op) returns (live: seq<UnsureOwnershipPtr>)
    requires op.MakeEmpty? || op.MakeTagged? || op.MakeFromUnique? || (op.MakeMoved? && op.src < |hs|)
    requires Distinct(hs)
    modifies set h | h in hs
    ensures Distinct(live)
    ensures Words(live) == old(match op
      case MakeTagged(isOwned, address) => Words(hs) + [Zip(isOwned, address)]
      case MakeFromUnique(raw) => Words(hs) + [raw]
      case MakeMoved(src) => Words(hs)[src := Null] + [Words(hs)[src]]
      case _ => Words(hs) + [Null])
  {
    var h;
    if op.MakeEmpty? {
      h := new UnsureOwnershipPtr.Empty();
    } else if op.MakeTagged? {
      h := new UnsureOwnershipPtr.Tagged(op.isOwned, op.address);
    } else if op.MakeFromUnique? {
      var u := new UniquePtr(op.raw);
      h := new UnsureOwnershipPtr.FromUnique(u);
    } else {
      h := new UnsureOwnershipPtr.Moved(hs[op.src]);
    }
    live := hs + [h];
  }

  /** Move assignment between two live handles. */
  method ExecuteAssign(hs: seq<UnsureOwnershipPtr>, store: FreeStore, dst: nat, src: nat)
    requires Distinct(hs) && dst < |hs| && src < |hs| && dst != src
    modifies (set h | h in hs), store
    ensures Words(hs) == old(Words(hs)[dst := hs[src].pointer][src := Null])
    ensures store.freed == old(store.freed + Responsible(hs[dst].pointer))
  {
    ghost var before := Words(hs);
    var h, other := hs[dst], hs[src];
    assert h != other;
    ghost var moved: Word, dropped := other.pointer, Responsible(h.pointer);
    h.MoveAssign(other, store);
    assert h.pointer == moved && other.pointer == Null;
    assert store.freed == old(store.freed) + dropped;
    forall i | 0 <= i < |hs| && i != dst && i != src ensures hs[i].pointer == before[i] {
      assert hs[i] != h && hs[i] != other;
    }
    assert Words(hs) == before[dst := moved][src := Null];
  }

  /** Move assignment of a handle to itself. */
  method ExecuteSelfAssign(hs: seq<UnsureOwnershipPtr>, store: FreeStore, dst: nat)
    requires Distinct(hs) && dst < |hs|
    modifies (set h | h in hs), store
    ensures Words(hs) == old(Words(hs)[dst := if HasOwnership(hs[dst].pointer) then hs[dst].pointer else Null])
    ensures store.freed == old(store.freed)
  {
    ghost var before := Words(hs);
    var h := hs[dst];
    h.MoveAssign(h, store);
    forall i | 0 <= i < |hs| && i != dst ensures hs[i].pointer == before[i] {
      assert hs[i] != h;
    }
  }

  /** One of the `reset` overloads. */
  method ExecuteReset(hs: seq<UnsureOwnershipPtr>, store: FreeStore, op: Op)
    requires (op.ResetUnique? || op.ResetTagged? || op.ResetEmpty?) && Distinct(hs) && op.dst < |hs|
    modifies (set h | h in hs), store
    ensures Words(hs) == old(Words(hs)[op.dst := match op
      case ResetUnique(_, raw) => raw
      case ResetTagged(_, isOwned, address) => Zip(isOwned, address)
      case _ => Null])
    ensures store.freed == old(store.freed + Responsible(hs[op.dst].pointer))
  {
    ghost var before := Words(hs);
    var h := hs[op.dst];
    if op.ResetUnique? {
      var u := new UniquePtr(op.raw);
      h.ResetUnique(u, store);
    } else if op.ResetTagged? {
      h.ResetTagged(op.isOwned, op.address, store);
    } else {
      h.ResetEmpty(store);
    }
    forall i | 0 <= i < |hs| && i != op.dst ensures hs[i].pointer == before[i] {
      assert hs[i] != h;
    }
  }

  /** `release` on a live handle. */
  method ExecuteRelease(hs: seq<UnsureOwnershipPtr>, dst: nat) returns (released: Word)
    requires Distinct(hs) && dst < |hs|
    modifies set h | h in hs
    ensures Words(hs) == old(Words(hs))[dst := Null]
    ensures released == Unzip(old(hs[dst].pointer))
  {
    released := hs[dst].Release();
  }

  /** `swap` between two live handles. */
  method ExecuteSwap(hs: seq<UnsureOwnershipPtr>, dst: nat, src: nat)
    requires Distinct(hs) && dst < |hs| && src < |hs|
    modifies set h | h in hs
    ensures Words(hs) == old(Words(hs)[dst := Words(hs)[src]][src := Words(hs)[dst]])
  {
    hs[dst].Swap(hs[src]);
  }

  /** The destructor of a live handle, which then leaves the pool. */
  method ExecuteDestroy(hs: seq<UnsureOwnershipPtr>, store: FreeStore, dst: nat)
    returns (live: seq<UnsureOwnershipPtr>)
    requires Distinct(hs) && dst < |hs|
    modifies (set h | h in hs), store
    ensures Distinct(live)
    ensures Words(live) == old(Words(hs)[..dst] + Words(hs)[dst + 1..])
    ensures store.freed == old(store.freed + Responsible(hs[dst].pointer))
  {
    hs[dst].Destroy(store);
    live := hs[..dst] + hs[dst + 1..];
  }
}
