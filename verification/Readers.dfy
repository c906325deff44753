// Resumable directory readers: the portable one with its one-entry lookahead, the bulk one that
// takes batches from the kernel, and the replacement of the second by the first.

module Readers {
  import opened Paths
  import opened Saturating

  datatype Backend = Portable | Native

  datatype Visit =
    | Visited(exhausted: bool)
    | Failed(unsupported: bool)

  class DirectoryReader {
    /** What the operating system enumerates, in its order. */
    const listing: seq<Component>
    /** Whether the operating system may report errors. */
    const mayFail: bool
    var backend: Backend
    /** Entries the operating system has not handed out yet. */
    var upcoming: seq<Component>
    /** Entries handed out but not yielded yet. */
    var pending: seq<Component>
    var exhausted: bool
    var yieldedEntries: bool
    /** Number of entries yielded so far. */
    ghost var taken: nat

    ghost predicate Valid()
      reads this
    {
      && taken <= |listing|
      && pending + upcoming == listing[taken..]
      && (exhausted ==> upcoming == [])
      && (backend.Portable? ==> |pending| <= 1)
      && (backend.Portable? && exhausted ==> pending == [])
      && (backend.Native? && !yieldedEntries ==> taken == 0)
    }

    ghost predicate AtEnd()
      reads this
    {
      taken == |listing|
    }

    constructor (listing: seq<Component>, backend: Backend, mayFail: bool)
      ensures Valid() && taken == 0 && this.listing == listing && this.backend == backend && this.mayFail == mayFail
      ensures !yieldedEntries
    {
      this.listing := listing;
      this.mayFail := mayFail;
      this.backend := backend;
      upcoming := listing;
      pending := [];
      exhausted := false;
      yieldedEntries := false;
      taken := 0;
    }

    /** Hand out one entry: the remembered one first, then the operating system's next one. */
    method Next() returns (name: Component)
      requires Valid() && (pending != [] || (backend.Portable? && upcoming != []))
      modifies this
      ensures Valid() && backend == old(backend)
      ensures old(taken) < |listing| && taken == old(taken) + 1 && name == listing[old(taken)]
      ensures yieldedEntries && exhausted == old(exhausted)
      ensures |pending| + |upcoming| == old(|pending| + |upcoming|) - 1
      ensures old(|pending|) <= 1 ==> pending == []
    {
      ghost var rest := listing[taken..];
      if pending != [] {
        name, pending := pending[0], pending[1..];
      } else {
        name, upcoming := upcoming[0], upcoming[1..];
      }
      assert name == rest[0] && pending + upcoming == rest[1..];
      taken := taken + 1;
      yieldedEntries := true;
    }

    /** Move the operating system's next entries into the buffer. */
    method Buffer(count: nat)
      requires Valid() && pending == [] && 1 <= count <= |upcoming|
      requires backend.Portable? ==> count == 1
      modifies this`pending, this`upcoming
      ensures Valid() && pending != []
    {
      assert pending + upcoming == upcoming[..count] + upcoming[count..];
      pending, upcoming := upcoming[..count], upcoming[count..];
    }

    /**
     * Portable slice; after a full slice it looks one entry ahead so that exhaustion is known
     * without another visit. `readable` says which entries could be inspected; the others are
     * yielded as errors.
     */
    method VisitPortable(maxEntries: nat) returns (yielded: seq<Component>, readable: seq<bool>, done: bool)
      requires Valid() && backend.Portable?
      modifies this
      ensures Valid() && backend == old(backend)
      ensures |readable| == |yielded| <= maxEntries && (!mayFail ==> false !in readable)
      ensures taken == old(taken) + |yielded| && yielded == listing[old(taken)..taken]
      ensures done <==> AtEnd()
      ensures !done ==> |yielded| == maxEntries
    {
      yielded, readable := [], [];
      while |yielded| < maxEntries
        invariant Valid() && backend == old(backend)
        invariant |readable| == |yielded| <= maxEntries && (!mayFail ==> false !in readable)
        invariant taken == old(taken) + |yielded| && yielded == listing[old(taken)..taken]
        invariant yielded != [] ==> pending == []
      {
        if pending == [] && upcoming == [] {
          exhausted := true;
          break;
        }
        var name := Next();
        var refused: bool := *;
        yielded, readable := yielded + [name], readable + [!(mayFail && refused)];
      }
      if |yielded| == maxEntries && pending == [] && !exhausted {
        if upcoming != [] {
          Buffer(1);
        } else {
          exhausted := true;
        }
      }
      done := exhausted;
    }

    /** One kernel call: an error, some further entries, or the end. */
    method FillPending() returns (filled: bool, unsupported: bool)
      requires Valid() && backend.Native? && pending == [] && !exhausted
      modifies this`pending, this`upcoming, this`exhausted
      ensures Valid()
      ensures filled ==> !unsupported && (exhausted <==> pending == [])
      ensures !filled ==> mayFail && pending == [] && !exhausted && upcoming == old(upcoming)
    {
      var fails: bool := *;
      if mayFail && fails {
        filled, unsupported := false, *;
      } else if upcoming == [] {
        exhausted := true;
        filled, unsupported := true, false;
      } else {
        var count :| 1 <= count <= |upcoming|;
        Buffer(count);
        filled, unsupported := true, false;
      }
    }

    /** Bulk slice: yield what is buffered, refill when empty, and look ahead after a full slice. */
    method VisitNative(maxEntries: nat) returns (yielded: seq<Component>, readable: seq<bool>, visit: Visit)
      requires Valid() && backend.Native?
      modifies this
      ensures Valid() && backend == old(backend)
      ensures |readable| == |yielded| <= maxEntries && (!mayFail ==> false !in readable)
      ensures taken == old(taken) + |yielded| && yielded == listing[old(taken)..taken]
      ensures visit.Visited? ==> (visit.exhausted <==> AtEnd())
      ensures visit.Visited? && !visit.exhausted ==> |yielded| == maxEntries
      ensures yieldedEntries <==> old(yieldedEntries) || yielded != []
      ensures visit.Failed? ==> mayFail
    {
      yielded, readable := [], [];
      while |yielded| < maxEntries
        invariant Valid() && backend == old(backend)
        invariant |readable| == |yielded| <= maxEntries && (!mayFail ==> false !in readable)
        invariant taken == old(taken) + |yielded| && yielded == listing[old(taken)..taken]
        invariant yieldedEntries <==> old(yieldedEntries) || yielded != []
        decreases maxEntries - |yielded|, pending == [], !exhausted
      {
        if pending == [] {
          if exhausted {
            break;
          }
          var filled, unsupported := FillPending();
          if !filled {
            return yielded, readable, Failed(unsupported);
          }
        } else {
          var name := Next();
          var refused: bool := *;
          yielded, readable := yielded + [name], readable + [!(mayFail && refused)];
        }
      }
      if |yielded| == maxEntries && pending == [] && !exhausted {
        var filled, unsupported := FillPending();
        if !filled {
          return yielded, readable, Failed(unsupported);
        }
      }
      visit := Visited(exhausted && pending == []);
    }

    /**
     * One slice of either reader. A bulk reader that is told the call is unsupported is replaced by
     * a portable one, but only before it has yielded anything; opening the replacement may fail.
     */
    method Visit(maxEntries: nat) returns (yielded: seq<Component>, readable: seq<bool>, visit: Visit)
      requires Valid()
      modifies this
      ensures Valid()
      ensures |readable| == |yielded| <= maxEntries && (!mayFail ==> false !in readable)
      ensures taken == old(taken) + |yielded| && yielded == listing[old(taken)..taken]
      ensures visit.Visited? ==> (visit.exhausted <==> AtEnd())
      ensures visit.Visited? && !visit.exhausted ==> |yielded| == maxEntries
      ensures old(backend).Portable? ==> visit.Visited? && backend.Portable?
      ensures visit.Failed? ==> mayFail
      ensures visit == Failed(true) ==> yieldedEntries
      ensures backend != old(backend) ==> old(taken) == 0 && !old(yieldedEntries) && visit.Visited?
    {
      if backend.Portable? {
        var done;
        yielded, readable, done := VisitPortable(maxEntries);
        return yielded, readable, Visited(done);
      }
      yielded, readable, visit := VisitNative(maxEntries);
      if visit.Failed? && visit.unsupported && !yieldedEntries {
        if * {
          visit := Failed(false);
        } else {
          backend, upcoming, pending, exhausted := Portable, listing, [], false;
          var done;
          yielded, readable, done := VisitPortable(maxEntries);
          visit := Visited(done);
        }
      }
    }
  }

  /**
   * Any schedule of slices: the concatenated yields are the start of the listing, in order and
   * without repetition. A slice that neither ends the listing nor fails is a full one, and the one that
   * reports exhaustion completes the listing, so slices that add up to its length read all of it.
   */
  method ReadInSlices(listing: seq<Component>, backend: Backend, mayFail: bool, slices: seq<nat>)
    returns (all: seq<Component>, used: nat, visit: Visit)
    ensures all <= listing && used <= |slices| && (slices != [] ==> used > 0)
    ensures |all| <= Sum(slices[..used])
    ensures visit == Visited(false) ==> used == |slices| && |all| == Sum(slices)
    ensures visit == Visited(true) ==> used > 0 && all == listing
    ensures visit == Visited(false) && slices != [] ==> all != listing
    ensures backend.Portable? || !mayFail ==> visit.Visited?
    ensures visit.Visited? && slices != [] && Sum(slices) >= |listing| ==> all == listing && visit.exhausted
  {
    var reader := new DirectoryReader(listing, backend, mayFail);
    all, used, visit := [], 0, Visited(false);
    while used < |slices| && visit == Visited(false)
      invariant used <= |slices|
      invariant reader.Valid() && fresh(reader) && reader.listing == listing && reader.mayFail == mayFail
      invariant all == listing[..reader.taken] && |all| <= Sum(slices[..used])
      invariant used > 0 && visit.Visited? ==> (visit.exhausted <==> reader.AtEnd())
      invariant used == 0 ==> visit == Visited(false)
      invariant visit == Visited(false) ==> |all| == Sum(slices[..used])
      invariant backend.Portable? ==> visit.Visited? && reader.backend.Portable?
      invariant !mayFail ==> visit.Visited?
    {
      var yielded, readable;
      yielded, readable, visit := reader.Visit(slices[used]);
      all := all + yielded;
      assert slices[..used + 1] == slices[..used] + [slices[used]];
      used := used + 1;
    }
    assert used == |slices| ==> slices[..used] == slices;
  }
}
