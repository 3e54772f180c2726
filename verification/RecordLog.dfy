/**
 * An append-only log of self-delimiting records: what decoding a whole log, a longer log
 * or a torn log gives, for any record writer and reader that agree with each other.
 */
module RecordLog {
  import opened Integers
  import opened Wrappers

  type Reader<!E, !Err> = (seq<u8>, nat) --> Result<(E, nat), Err>

  ghost predicate Advances<E, Err>(read: Reader<E, Err>, buf: seq<u8>) {
    forall pos: nat | pos <= |buf| ::
      read.requires(buf, pos) && (read(buf, pos).Success? ==> pos < read(buf, pos).value.1 <= |buf|)
  }

  function Prepended<E, Err>(entries: seq<E>, r: Result<seq<E>, Err>): Result<seq<E>, Err> {
    match r case Success(rest) => Success(entries + rest) case Failure(e) => Failure(e)
  }

  function DecodeFrom<E, Err>(read: Reader<E, Err>, buf: seq<u8>, pos: nat): Result<seq<E>, Err>
    requires Advances(read, buf) && pos <= |buf|
    decreases |buf| - pos
  {
    if pos == |buf| then Success([])
    else
      match read(buf, pos)
      case Failure(e) => Failure(e)
      case Success((entry, next)) => Prepended([entry], DecodeFrom(read, buf, next))
  }

  function EncodeAll<E>(write: E -> seq<u8>, entries: seq<E>): seq<u8> {
    if entries == [] then [] else write(entries[0]) + EncodeAll(write, entries[1..])
  }

  // The reader recovers this entry wherever its record stands, and notices it cut short.
  ghost predicate Agree<E, Err>(write: E -> seq<u8>, read: Reader<E, Err>, entry: E) {
    && write(entry) != []
    && (forall buf: seq<u8>, pos: nat | Stands(buf, pos, write(entry)) ::
          read.requires(buf, pos) && read(buf, pos) == Success((entry, pos + |write(entry)|)))
    && (forall buf: seq<u8>, pos: nat | TornAt(buf, pos, write(entry)) ::
          read.requires(buf, pos) && read(buf, pos).Failure?)
  }

  ghost predicate AllAgree<E, Err>(write: E -> seq<u8>, read: Reader<E, Err>, entries: seq<E>) {
    && (forall buf: seq<u8> :: Advances(read, buf))
    && (forall i | 0 <= i < |entries| :: Agree(write, read, entries[i]))
  }

  predicate TornAt(buf: seq<u8>, pos: nat, part: seq<u8>) {
    pos < |buf| < pos + |part| && buf[pos..] == part[..|buf| - pos]
  }

  // How many records lie before byte k, if k is a record boundary.
  function RecordsBefore<E>(write: E -> seq<u8>, entries: seq<E>, k: nat): (count: Option<nat>)
    ensures count.Some? ==> count.value <= |entries|
  {
    if k == 0 then Some(0)
    else if entries == [] || k < |write(entries[0])| then None
    else
      match RecordsBefore(write, entries[1..], k - |write(entries[0])|)
      case Some(n) => Some(n + 1)
      case None => None
  }

  lemma {:induction false} RecordsBeforeIsBoundary<E>(write: E -> seq<u8>, entries: seq<E>, k: nat, j: nat)
    requires j <= |entries|
    requires forall i | 0 <= i < |entries| :: write(entries[i]) != []
    ensures RecordsBefore(write, entries, k) == Some(j) <==> k == |EncodeAll(write, entries[..j])|
  {
    if j > 0 {
      assert entries[..j][0] == entries[0] && entries[..j][1..] == entries[1..][..j - 1];
      if k >= |write(entries[0])| {
        RecordsBeforeIsBoundary(write, entries[1..], k - |write(entries[0])|, j - 1);
      }
    }
  }

  lemma {:induction false} Cut(pre: seq<u8>, first: seq<u8>, rest: seq<u8>, k: nat)
    requires k <= |first + rest|
    ensures 0 < k < |first| ==> TornAt(pre + (first + rest)[..k], |pre|, first)
    ensures k >= |first| ==>
              && pre + (first + rest)[..k] == pre + first + rest[..k - |first|]
              && Stands(pre + (first + rest)[..k], |pre|, first)
  {
  }

  // A cut inside the first record is noticed; after it, decoding goes on behind it.
  lemma {:induction false} CutDecodes<E, Err>(write: E -> seq<u8>, read: Reader<E, Err>, pre: seq<u8>, entry: E,
                                              rest: seq<u8>, k: nat)
    requires Agree(write, read, entry) && 0 < k <= |write(entry) + rest|
    requires Advances(read, pre + (write(entry) + rest)[..k])
    ensures var first := write(entry);
            var r := DecodeFrom(read, pre + (first + rest)[..k], |pre|);
            if k < |first| then r.Failure?
            else && pre + (first + rest)[..k] == pre + first + rest[..k - |first|]
                 && r == Prepended([entry], DecodeFrom(read, pre + first + rest[..k - |first|], |pre + first|))
  {
    var first := write(entry);
    var buf := pre + (first + rest)[..k];
    Cut(pre, first, rest, k);
    if k < |first| {
      TornFails(write, read, buf, |pre|, entry);
    } else {
      FirstDecodes(write, read, buf, |pre|, entry);
    }
  }

  lemma {:induction false} TornDecode<E, Err>(write: E -> seq<u8>, read: Reader<E, Err>,
                                              pre: seq<u8>, entries: seq<E>, k: nat)
    requires AllAgree(write, read, entries)
    requires k <= |EncodeAll(write, entries)|
    ensures Advances(read, pre + EncodeAll(write, entries)[..k])
    ensures var r := DecodeFrom(read, pre + EncodeAll(write, entries)[..k], |pre|);
            match RecordsBefore(write, entries, k)
            case Some(j) => r == Success(entries[..j])
            case None => r.Failure?
    decreases |entries|
  {
    if k > 0 {
      var entry := entries[0];
      var first, rest := write(entry), EncodeAll(write, entries[1..]);
      assert Agree(write, read, entry) && Advances(read, pre + (first + rest)[..k]);
      CutDecodes(write, read, pre, entry, rest, k);
      if k >= |first| {
        TornDecode(write, read, pre + first, entries[1..], k - |first|);
        PrependedPrefix(entries, RecordsBefore(write, entries[1..], k - |first|));
      }
    }
  }

  lemma {:induction false} PrependedPrefix<E>(entries: seq<E>, before: Option<nat>)
    requires entries != [] && (before.Some? ==> before.value < |entries|)
    ensures before.Some? ==> [entries[0]] + entries[1..][..before.value] == entries[..before.value + 1]
  {
  }

  lemma {:induction false} FirstDecodes<E, Err>(write: E -> seq<u8>, read: Reader<E, Err>, buf: seq<u8>, pos: nat,
                                                entry: E)
    requires Agree(write, read, entry) && Advances(read, buf) && Stands(buf, pos, write(entry))
    ensures DecodeFrom(read, buf, pos) == Prepended([entry], DecodeFrom(read, buf, pos + |write(entry)|))
  {
  }

  lemma {:induction false} TornFails<E, Err>(write: E -> seq<u8>, read: Reader<E, Err>, buf: seq<u8>, pos: nat,
                                             entry: E)
    requires Agree(write, read, entry) && Advances(read, buf) && TornAt(buf, pos, write(entry))
    ensures DecodeFrom(read, buf, pos).Failure?
  {
  }

  // Decoding any byte prefix of a log succeeds exactly at a record boundary, and then
  // returns exactly the records before it: a torn tail is always noticed.
  lemma {:induction false} PrefixDecodes<E, Err>(write: E -> seq<u8>, read: Reader<E, Err>, entries: seq<E>, k: nat)
    requires AllAgree(write, read, entries)
    requires k <= |EncodeAll(write, entries)|
    ensures var r := DecodeFrom(read, EncodeAll(write, entries)[..k], 0);
            && (r.Success? <==> exists j | 0 <= j <= |entries| :: k == |EncodeAll(write, entries[..j])|)
            && (forall j | 0 <= j <= |entries| && k == |EncodeAll(write, entries[..j])| :: r == Success(entries[..j]))
  {
    assert [] + EncodeAll(write, entries)[..k] == EncodeAll(write, entries)[..k];
    TornDecode(write, read, [], entries, k);
    forall j | 0 <= j <= |entries|
      ensures RecordsBefore(write, entries, k) == Some(j) <==> k == |EncodeAll(write, entries[..j])|
    {
      RecordsBeforeIsBoundary(write, entries, k, j);
    }
  }

  lemma {:induction false} WholeLogDecodes<E, Err>(write: E -> seq<u8>, read: Reader<E, Err>, entries: seq<E>)
    requires AllAgree(write, read, entries)
    ensures DecodeFrom(read, EncodeAll(write, entries), 0) == Success(entries)
  {
    var bytes := EncodeAll(write, entries);
    assert bytes[..|bytes|] == bytes && entries[..|entries|] == entries;
    PrefixDecodes(write, read, entries, |bytes|);
  }

  lemma {:induction false} EncodeAllSnoc<E>(write: E -> seq<u8>, entries: seq<E>, entry: E)
    ensures EncodeAll(write, entries + [entry]) == EncodeAll(write, entries) + write(entry)
  {
    if entries == [] {
      assert EncodeAll(write, [entry]) == write(entry) + EncodeAll(write, []);
    } else {
      assert (entries + [entry])[1..] == entries[1..] + [entry];
      EncodeAllSnoc(write, entries[1..], entry);
    }
  }

  // What holds of every entry the reader returns holds of every entry a log decodes to.
  lemma {:induction false} DecodedSatisfy<E, Err>(read: Reader<E, Err>, buf: seq<u8>, pos: nat, good: E -> bool)
    requires Advances(read, buf) && pos <= |buf| && DecodeFrom(read, buf, pos).Success?
    requires forall p: nat | p <= |buf| && read(buf, p).Success? :: good(read(buf, p).value.0)
    ensures forall e | e in DecodeFrom(read, buf, pos).value :: good(e)
    decreases |buf| - pos
  {
    if pos < |buf| {
      DecodedSatisfy(read, buf, read(buf, pos).value.1, good);
    }
  }

  // A buffer decodes to one entry exactly when one read consumes all of it.
  lemma {:induction false} SoleEntryIff<E, Err>(read: Reader<E, Err>, buf: seq<u8>, entry: E)
    requires Advances(read, buf) && buf != []
    ensures DecodeFrom(read, buf, 0) == Success([entry]) <==> read(buf, 0) == Success((entry, |buf|))
  {
    assert [entry] + [] == [entry];
    if DecodeFrom(read, buf, 0) == Success([entry]) {
      var (first, next) := read(buf, 0).value;
      var rest := DecodeFrom(read, buf, next).value;
      assert ([first] + rest)[0] == first && |[first] + rest| == 1 + |rest|;
      assert rest == [];
    }
  }
}
