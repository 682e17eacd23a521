# unsure_ownership_ptr, modelled in Dafny

`unsure_ownership_ptr<T>` is a move-only smart pointer that may or may not
own what it points to. It is a `std::unique_ptr<T>` whose stored raw word
carries one extra bit. Bit 0 of the word holds `!is_owned`, so the wrapper
is exactly as large as a `unique_ptr`. The referent is deleted only when
bit 0 is clear ("owned"). A handle whose bit 0 is set ("borrowed") releases
the word from the inner `unique_ptr` before that pointer could delete it.

The model has three modules:

- `Codec` (codec.dfy) holds the tagged-pointer codec: `zip_ptr`,
  `unzip_ptr` and `has_ownership` on a 64-bit word.
  - A word is its unsigned value below 2^64, the value that
    `reinterpret_cast<size_t>` gives.
  - The three bit operations touch bit 0 only, so they are written out on
    that value. Bit 0 is `w % 2`, and `Bit0IsAndOne` ties it to `& 0x1` on
    the `bv64` word.
  - Masking with `SIZE_MAX - 1` subtracts bit 0.
  - OR-ing in 1 adds one exactly when bit 0 was clear.
- `Lifecycle` (lifecycle.dfy) holds the class `UnsureOwnershipPtr`. Its one
  field `pointer` is the raw word held by the inner `unique_ptr`. Every
  method is written with that pointer's own primitives:
  - `release` hands the word out and zeroes it;
  - `reset` stores a new word, then deletes the old one if it is non-null;
  - destruction deletes the word if it is non-null.

  What is deleted goes into the ghost log `FreeStore.freed`.
  `Responsible(w)` is the referent that a handle holding word `w` answers
  for.
- `Handles` (handles.dfy) models whole client programs over any number of
  handles.
  - A `Pool` holds the words of the live handles and the free log.
  - `Step` gives the effect of one operation.
  - `Execute` runs one operation on real handle objects through the
    class's methods, and is proved to agree with `Step`.
  - The whole-program theorems state the type's promises.
    - Never freed beyond ownership, in any program: no address is freed
      more often than it was handed over as owned, so a borrowed referent
      is never freed.
    - Freed exactly once, in programs whose owned hand-overs are aligned:
      once every handle is gone, each owned hand-over is freed exactly
      once unless `release` hands it back to the caller.

The code uses bit 0, not a high-bit canonical-address tag or a two-field
layout. Where the code differs from those designs, the model follows the
code:

- The flag lives in bit 0 (set means borrowed), not in the high bits of a
  canonical address. There is no portable two-field fallback.
- Word 0 means an empty, moved-from or released handle. It reads as owned
  (`has_ownership()` is true), not as non-owning. It still frees nothing,
  because deleting null is a no-op.
- `zip_ptr` does not check its address. An odd address, such as the
  `char*` at test.cpp:49, reads back one lower and as borrowed. An odd
  address handed over as owned therefore leaks (`OddOwnedAddressLeaks`).
- `reset(unique_ptr&&)` (unsure_ownership_ptr.hpp:40-47) and
  `reset(bool, T*)` (unsure_ownership_ptr.hpp:52-59) name their parameter
  `pointer`, like the field, and neither overload compiles once used.
  In `reset(unique_ptr&&)`, `pointer.release()` (unsure_ownership_ptr.hpp:44)
  as written releases the argument, not the field, and
  `pointer.reset(std::move(pointer))` (unsure_ownership_ptr.hpp:46) is
  ill-formed. In `reset(bool, T*)`, both calls
  (unsure_ownership_ptr.hpp:56, 58) are ill-formed on a raw pointer.
  - `ResetUnique`, `ResetEmpty` and `ResetTagged` model the evident intent,
    which is the pattern of move assignment: free the old referent exactly
    when it is owned, then store the new word.
  - The comments on `ResetUnique` and `ResetTagged` in lifecycle.dfy say
    the same.
- Self move-assignment follows `unique_ptr`'s move assignment,
  `reset(other.release())`. An owned handle keeps its word; a borrowed one
  becomes empty. Nothing is freed.

## Model

| member | source | states |
|---|---|---|
| `Codec.Zip` | unsure_ownership_ptr.hpp:14-17 | encoding keeps every bit but bit 0 (same decoded address), and the flag reads back "owned" iff ownership was asked for and the address is aligned |
| `Codec.Unzip` | unsure_ownership_ptr.hpp:10-13 | the decoded address is the largest aligned word not above the stored word |
| `Codec.HasOwnership` | unsure_ownership_ptr.hpp:20-23 | the flag is "owned" iff decoding leaves the word unchanged |
| `Codec.Bit0IsAndOne` | unsure_ownership_ptr.hpp:22 | bit 0 of the modelled word equals `& 0x1` on the 64-bit word |
| `Codec.RoundTrip` | unsure_ownership_ptr.hpp:10-17 | an aligned address and either flag decode back unchanged |
| `Codec.MisalignedAddress` | unsure_ownership_ptr.hpp:14-17 | an odd address is stored unchanged, decodes one lower and always reads as borrowed |
| `Codec.UnzipIdempotent` | unsure_ownership_ptr.hpp:10-13 | decoding twice is decoding once |
| `Codec.NullEncodings` | unsure_ownership_ptr.hpp:14-23 | null decodes to null with either flag; owned null is word 0 and reads owned; borrowed null is word 1 |
| `Lifecycle.Responsible` | unsure_ownership_ptr.hpp:93-99 | a handle answers for what the inner `unique_ptr` would delete when the flag says owned, and for nothing when borrowed |
| `Lifecycle.NullOwnsNothing` | unsure_ownership_ptr.hpp:61 | the empty word 0 reads as owned yet answers for nothing; null with either flag answers for nothing |
| `Lifecycle.BorrowedOwnsNothing` | unsure_ownership_ptr.hpp:14-17 | a word made with `is_owned == false` answers for nothing, whatever the address |
| `Lifecycle.FreeStore.Delete` | unsure_ownership_ptr.hpp:93-99 | `delete raw`, done by the inner `unique_ptr` on reset or destruction, logs `raw` once and logs nothing for null |
| `Lifecycle.UniquePtr.Release` | unsure_ownership_ptr.hpp:65 | the argument `unique_ptr` hands out its word verbatim and is left null |
| `Lifecycle.UnsureOwnershipPtr.UniqueRelease` | unsure_ownership_ptr.hpp:30 | the inner `unique_ptr`'s `release` hands out the stored word and leaves null, freeing nothing |
| `Lifecycle.UnsureOwnershipPtr.UniqueReset` | unsure_ownership_ptr.hpp:58 | the inner `unique_ptr`'s `reset(raw)` stores `raw` and deletes the old word, if it is non-null |
| `Lifecycle.UnsureOwnershipPtr.Empty` | unsure_ownership_ptr.hpp:61 | the default handle holds word 0: null, owned and false as a bool |
| `Lifecycle.UnsureOwnershipPtr.Tagged` | unsure_ownership_ptr.hpp:64 | stores `zip_ptr(is_owned, p)`; aligned `p` reads back with its flag, odd `p` one lower and borrowed |
| `Lifecycle.UnsureOwnershipPtr.FromUnique` | unsure_ownership_ptr.hpp:65 | adopts the `unique_ptr`'s word verbatim and empties it; an aligned referent is owned and answered for |
| `Lifecycle.UnsureOwnershipPtr.Moved` | unsure_ownership_ptr.hpp:63 | move construction transfers the word verbatim (same `get()` and flag) and leaves the source as word 0 |
| `Lifecycle.UnsureOwnershipPtr.Get` | unsure_ownership_ptr.hpp:24-27 | `get()` is aligned and is the stored word or one less; it reads state only |
| `Lifecycle.UnsureOwnershipPtr.HasOwnership` | unsure_ownership_ptr.hpp:20-23 | owned iff `get()` equals the stored word |
| `Lifecycle.UnsureOwnershipPtr.NonNull` | unsure_ownership_ptr.hpp:83-86 | `operator bool` is false exactly for the two encodings of null, words 0 and 1 |
| `Lifecycle.UnsureOwnershipPtr.Release` | unsure_ownership_ptr.hpp:28-31 | returns the decoded address, leaves word 0, frees nothing; an owned referent becomes the caller's |
| `Lifecycle.UnsureOwnershipPtr.Swap` | unsure_ownership_ptr.hpp:36-39 | exchanges the two words, addresses and flags together, and frees nothing |
| `Lifecycle.UnsureOwnershipPtr.MoveAssign` | unsure_ownership_ptr.hpp:68-76 | frees the destination's old referent iff it was owned, takes the source's word, empties the source; self-assignment frees nothing |
| `Lifecycle.UnsureOwnershipPtr.ResetMoved` | unsure_ownership_ptr.hpp:48-51 | `reset(unsure_ownership_ptr&&)` behaves as move assignment |
| `Lifecycle.UnsureOwnershipPtr.ResetUnique` | unsure_ownership_ptr.hpp:40-47 | frees the old referent iff owned, then adopts the `unique_ptr`'s word and empties it |
| `Lifecycle.UnsureOwnershipPtr.ResetEmpty` | unsure_ownership_ptr.hpp:40 | `reset()` frees the old referent iff owned and leaves word 0 |
| `Lifecycle.UnsureOwnershipPtr.ResetTagged` | unsure_ownership_ptr.hpp:52-59 | frees the old referent iff owned, then stores `zip_ptr(is_owned, p)` |
| `Lifecycle.UnsureOwnershipPtr.Destroy` | unsure_ownership_ptr.hpp:93-99 | the destructor frees the decoded referent iff the flag says owned, never a borrowed one |
| `Handles.Step` | unsure_ownership_ptr.hpp:28-99 | one statement's effect on the pool: construction adds one handle, destruction removes one, every other statement keeps the count; `Execute` ties its words and log to the class's methods |
| `Handles.StepConserves` | unsure_ownership_ptr.hpp:28-99 | for an operation whose owned hand-over is aligned: for every address, freed + answered for + released grows by exactly what the operation hands over as owned |
| `Handles.StepFreesOnlyOwned` | unsure_ownership_ptr.hpp:40-99 | one operation never unfrees anything, and frees an address at most as often as live handles answered for it |
| `Handles.HandedBounds` | unsure_ownership_ptr.hpp:14-23 | a word made from `(is_owned, p)` answers at most for `p`, and only when owned; exactly for `p` when owned and `p` is aligned; for nothing when `p` is odd |
| `Handles.StepBounded` | unsure_ownership_ptr.hpp:28-99 | for every statement, with any addresses, freed + answered for + released grows by at most what the statement hands over as owned |
| `Handles.RunBounded` | unsure_ownership_ptr.hpp:28-99 | the same bound over any program (by induction) |
| `Handles.ConservationAt` | unsure_ownership_ptr.hpp:28-99 | conservation, address by address, over any program with aligned owned hand-overs (by induction) |
| `Handles.Conservation` | unsure_ownership_ptr.hpp:28-99 | the same conservation as a multiset equation |
| `Handles.NoFreeBeyondOwnership` | unsure_ownership_ptr.hpp:93-99 | from the start, in any program, odd addresses included, no address is freed more often than it was handed over as owned; an address that was only lent is never freed |
| `Handles.FreedExactlyOnce` | unsure_ownership_ptr.hpp:93-99 | for programs whose owned hand-overs are aligned: once every handle is gone, freed plus released is exactly what was handed over as owned |
| `Handles.OddOwnedAddressLeaks` | unsure_ownership_ptr.hpp:14-17 | any odd address handed over as owned decodes one lower, and destroying its handle frees nothing, so it leaks |
| `Handles.BorrowedThenOwned` | test.cpp:10-26 | destroying a borrowed handle frees nothing; destroying an adopted owned handle frees its referent once |
| `Handles.ResetToBorrowed` | unsure_ownership_ptr.hpp:52-59 | `reset(false, p)` on a handle owning `q` frees `q` once, and the handle then yields `p`, borrowed |
| `Handles.Execute` | unsure_ownership_ptr.hpp:28-99 | running one operation on handle objects through the class's methods leaves exactly the words and free log that `Step` gives |

## Left out

- `get_deleter` (unsure_ownership_ptr.hpp:32-35) is not modelled. Deletion is always the default `delete`, recorded in the ghost log.
- `operator->` and `operator*` (unsure_ownership_ptr.hpp:78-91) are not modelled. They only return `get()` or dereference it, and memory contents are not modelled.
- The deleted copy constructor and copy assignment (unsure_ownership_ptr.hpp:62, 67) are compile-time restrictions. The model has no copy operation.
- The pointee type `T` and the work of its destructor are not modelled. A referent is only its address.
- The demonstration driver test.cpp is not modelled: console output, `rand`, `time`, `sleep_for` and its endless loop. Its two kinds of handle appear only as the `BorrowedThenOwned` lemma.
- The `static_assert` on `sizeof` (test.cpp:40) is a fact about memory layout that the model cannot state.
- Thread safety is not modelled. The type has no synchronisation, and the model is sequential.
- The high-bit, canonical-address encoding and the two-field fallback are not modelled. Neither is present in the code.
- A word is modelled as its unsigned value, not as a `bv64`. Only `& 0x1` is tied to the bit-vector operation by a lemma. Masking and OR-ing are written out as arithmetic on bit 0.
- Self move-assignment is modelled as the standard specifies `unique_ptr`'s move assignment, `reset(u.release())`. An implementation that skips self-assignment leaves the same word, so the result does not depend on the library.
