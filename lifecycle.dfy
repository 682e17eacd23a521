/**
 * The ownership-aware lifecycle of `unsure_ownership_ptr`. The class keeps
 * one word, the raw value held by its inner owning pointer (a
 * `std::unique_ptr`), and every operation is written out with the three
 * primitives of that owning pointer: `release` (hand the word out and zero
 * it), `reset` (store a new word, then delete the old one if it is not
 * null) and destruction (delete the word if it is not null). What gets
 * deleted is recorded in a ghost log of freed addresses.
 */
module Lifecycle {
  import opened Codec

  /** What `delete raw` frees: the word itself, and nothing for null. */
  function Deleted(raw: Word): multiset<Word> {
    if raw == Null then multiset{} else multiset{raw}
  }

  /** The referent a handle holding the word `w` is responsible for: its
      decoded address when the flag says owned and the address is not null,
      nothing otherwise. It is exactly what the inner owning pointer would
      delete, when the flag says owned. */
  function Responsible(w: Word): (referent: multiset<Word>)
    ensures referent == if HasOwnership(w) then Deleted(w) else multiset{}
  {
    if HasOwnership(w) && Unzip(w) != Null then multiset{Unzip(w)} else multiset{}
  }

  /** The word of an empty handle reads as "owned", yet the handle answers
      for nothing; null encoded with either flag answers for nothing. */
  lemma NullOwnsNothing(isOwned: bool)
    ensures HasOwnership(Null) && Responsible(Null) == multiset{}
    ensures Responsible(Zip(isOwned, Null)) == multiset{}
  {
  }

  /** A borrowed word answers for nothing, whatever address it carries. */
  lemma BorrowedOwnsNothing(address: Word)
    ensures Responsible(Zip(false, address)) == multiset{}
  {
  }

  /** The free store behind `delete`: a ghost log of every address freed. */
  class FreeStore {
    ghost var freed: multiset<Word>

    constructor ()
      ensures freed == multiset{}
    {
      freed := multiset{};
    }

    /** `delete raw`, which does nothing for null. */
    method Delete(raw: Word)
      modifies this
      ensures freed == old(freed) + Deleted(raw)
    {
      if raw != Null {
        freed := freed + multiset{raw};
      }
    }
  }

  /** A plain owning pointer passed in by a caller; only its `release` is
      needed here. */
  class UniquePtr {
    var raw: Word

    constructor (raw: Word)
      ensures this.raw == raw
    {
      this.raw := raw;
    }

    /** Hands the word out and leaves the pointer null. */
    method Release() returns (p: Word)
      modifies this
      ensures p == old(raw) && raw == Null
    {
      p := raw;
      raw := Null;
    }
  }

  /** A move-only pointer that may or may not own its referent. */
  class UnsureOwnershipPtr {
    /** The word held by the inner owning pointer: the referent's address
        with the flag `!is_owned` in bit 0. */
    var pointer: Word

    /** `unsure_ownership_ptr()`: the empty handle, word 0, which reads as
        owned null. */
    constructor Empty()
      ensures pointer == Null
      ensures Get() == Null && HasOwnership() && !NonNull()
    {
      pointer := Null;
    }

    /** `unsure_ownership_ptr(is_owned, p)`: stores `zip_ptr(is_owned, p)`.
        An aligned address reads back with its flag; an odd one reads back
        one lower and as borrowed. */
    constructor Tagged(isOwned: bool, address: Word)
      ensures pointer == Zip(isOwned, address)
      ensures Aligned(address) ==> Get() == address && HasOwnership() == isOwned
      ensures !Aligned(address) ==> Get() == address - 1 && !HasOwnership()
    {
      pointer := Zip(isOwned, address);
    }

    /** `unsure_ownership_ptr(unique_ptr&&)`: adopts the owning pointer's
        word verbatim and leaves it null. An aligned referent is owned. */
    constructor FromUnique(u: UniquePtr)
      modifies u
      ensures pointer == old(u.raw) && u.raw == Null
      ensures Aligned(old(u.raw)) ==> Get() == old(u.raw) && HasOwnership()
      ensures Aligned(old(u.raw)) ==> Responsible(pointer) == Deleted(old(u.raw))
      ensures !Aligned(old(u.raw)) ==> !HasOwnership() && Responsible(pointer) == multiset{}
    {
      var raw := u.Release();
      pointer := raw;
    }

    /** Move construction: the word moves verbatim, so address and flag are
        those of the source, and the source is left as word 0. */
    constructor Moved(other: UnsureOwnershipPtr)
      modifies other
      ensures pointer == old(other.pointer) && other.pointer == Null
      ensures Get() == old(other.Get()) && HasOwnership() == old(other.HasOwnership())
    {
      var raw := other.UniqueRelease();
      pointer := raw;
    }

    /** `get`: the decoded address. */
    function Get(): (address: Word)
      reads this
      ensures Aligned(address)
      ensures address == pointer || address == pointer - 1
    {
      Unzip(pointer)
    }

    /** `has_ownership`: true exactly when the decoded address is the word
        itself, the value the inner owning pointer would delete. */
    function HasOwnership(): (owned: bool)
      reads this
      ensures owned <==> Get() == pointer
    {
      Codec.HasOwnership(pointer)
    }

    /** `operator bool`: false for both encodings of null, true otherwise. */
    function NonNull(): (nonNull: bool)
      reads this
      ensures nonNull <==> pointer != Null && pointer != 1
    {
      Get() != Null
    }

    /** The inner owning pointer's `release`. */
    method UniqueRelease() returns (raw: Word)
      modifies this
      ensures raw == old(pointer) && pointer == Null
    {
      raw := pointer;
      pointer := Null;
    }

    /** The inner owning pointer's `reset(raw)`: stores the new word, then
        deletes the old one. */
    method UniqueReset(raw: Word, store: FreeStore)
      modifies this, store
      ensures pointer == raw
      ensures store.freed == old(store.freed) + Deleted(old(pointer))
    {
      var previous := pointer;
      pointer := raw;
      store.Delete(previous);
    }

    /** `release`: hands the decoded address to the caller, leaves word 0
        and frees nothing. Whatever the handle owned is the caller's now. */
    method Release() returns (address: Word)
      modifies this
      ensures address == old(Get()) && pointer == Null
      ensures old(HasOwnership()) ==> Deleted(address) == Responsible(old(pointer))
    {
      var raw := UniqueRelease();
      address := Unzip(raw);
    }

    /** `swap`: exchanges the two words, addresses and flags together. */
    method Swap(other: UnsureOwnershipPtr)
      modifies this, other
      ensures pointer == old(other.pointer) && other.pointer == old(pointer)
    {
      var mine := pointer;
      pointer := other.pointer;
      other.pointer := mine;
    }

    /** Move assignment. A borrowed word is first released so that the inner
        owning pointer forgets it; then the inner owning pointer is move
        assigned, which frees the old referent exactly when it was owned.
        Assigning a handle to itself keeps an owned word and empties a
        borrowed one, and frees nothing. */
    method MoveAssign(other: UnsureOwnershipPtr, store: FreeStore)
      modifies this, other, store
      ensures other != this ==> pointer == old(other.pointer) && other.pointer == Null
      ensures other != this ==> store.freed == old(store.freed) + Responsible(old(pointer))
      ensures other == this ==> pointer == (if old(HasOwnership()) then old(pointer) else Null)
      ensures other == this ==> store.freed == old(store.freed)
    {
      if !HasOwnership() {
        var forgotten := UniqueRelease();
      }
      var raw := other.UniqueRelease();
      UniqueReset(raw, store);
    }

    /** `reset(unsure_ownership_ptr&&)`: move assignment. */
    method ResetMoved(other: UnsureOwnershipPtr, store: FreeStore)
      modifies this, other, store
      ensures other != this ==> pointer == old(other.pointer) && other.pointer == Null
      ensures other != this ==> store.freed == old(store.freed) + Responsible(old(pointer))
      ensures other == this ==> pointer == (if old(HasOwnership()) then old(pointer) else Null)
      ensures other == this ==> store.freed == old(store.freed)
    {
      MoveAssign(other, store);
    }

    /** `reset(unique_ptr&&)`, as evidently intended: the source text names
        its parameter like the field, so its `release` call acts on the
        argument rather than the field and its `reset` call is ill-formed;
        the overload does not compile once used. This follows the
        move-assignment pattern. Frees the old referent exactly
        when it was owned, then adopts the owning pointer's word. */
    method ResetUnique(u: UniquePtr, store: FreeStore)
      modifies this, u, store
      ensures pointer == old(u.raw) && u.raw == Null
      ensures store.freed == old(store.freed) + Responsible(old(pointer))
    {
      if !HasOwnership() {
        var forgotten := UniqueRelease();
      }
      var raw := u.Release();
      UniqueReset(raw, store);
    }

    /** `reset()`: the default argument is an empty owning pointer. */
    method ResetEmpty(store: FreeStore)
      modifies this, store
      ensures pointer == Null
      ensures store.freed == old(store.freed) + Responsible(old(pointer))
    {
      var empty := new UniquePtr(Null);
      ResetUnique(empty, store);
    }

    /** `reset(is_owned, p)`, as evidently intended: the source text names
        its parameter like the field, so both its `release` and its `reset`
        call are ill-formed on a raw pointer and the overload does not
        compile once used. This follows the move-assignment pattern. Frees the old referent exactly
        when it was owned, then stores `zip_ptr(is_owned, p)`. */
    method ResetTagged(isOwned: bool, address: Word, store: FreeStore)
      modifies this, store
      ensures pointer == Zip(isOwned, address)
      ensures store.freed == old(store.freed) + Responsible(old(pointer))
    {
      if !HasOwnership() {
        var forgotten := UniqueRelease();
      }
      UniqueReset(Zip(isOwned, address), store);
    }

    /** The destructor: a borrowed word is released first, then the inner
        owning pointer is destroyed, deleting what it still holds. So the
        decoded referent is freed exactly when the flag says owned, and a
        borrowed one never. */
    method Destroy(store: FreeStore)
      modifies this, store
      ensures pointer == Null
      ensures store.freed == old(store.freed) + Responsible(old(pointer))
    {
      if !HasOwnership() {
        var forgotten := UniqueRelease();
      }
      store.Delete(pointer);
      pointer := Null;
    }
  }
}
