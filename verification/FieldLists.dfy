/**
 * Bodies as lists of fields, written one after another and read back by kind: if each field reads
 * back whole and is missed when cut off, so does and is the whole list.
 */
module FieldLists {
  import opened Integers
  import opened Messages
  import opened Wrappers

  type Got<T> = Result<(T, nat), WireError>
  type Getter<!K, !V> = (K, seq<u8>, nat) -> Got<V>

  function BytesOf<V>(bytes: V -> seq<u8>, values: seq<V>): seq<u8> {
    if values == [] then [] else BytesOf(bytes, values[..|values| - 1]) + bytes(values[|values| - 1])
  }

  function GetAll<K, V>(get: Getter<K, V>, kinds: seq<K>, buf: seq<u8>, pos: nat): (r: Got<seq<V>>)
    ensures r.Success? ==> |r.value.0| == |kinds|
  {
    if kinds == [] then Success(([], pos))
    else
      var (values, p) :- GetAll(get, kinds[..|kinds| - 1], buf, pos);
      var (v, p) :- get(kinds[|kinds| - 1], buf, p);
      Success((values + [v], p))
  }

  predicate Shaped<K(==), V>(kindOf: V -> K, values: seq<V>, kinds: seq<K>) {
    |values| == |kinds| && forall i | 0 <= i < |kinds| :: kindOf(values[i]) == kinds[i]
  }

  predicate All<V>(ok: V -> bool, values: seq<V>) {
    forall i | 0 <= i < |values| :: ok(values[i])
  }

  // The bytes of `part` begin at `pos` but the buffer ends before they do.
  predicate CutOff(buf: seq<u8>, pos: nat, part: seq<u8>) {
    pos <= |buf| < pos + |part| && buf[pos..] == part[..|buf| - pos]
  }

  lemma {:induction false} CutOffSplit(buf: seq<u8>, pos: nat, a: seq<u8>, b: seq<u8>)
    requires CutOff(buf, pos, a + b)
    ensures if |buf| < pos + |a| then CutOff(buf, pos, a) else Stands(buf, pos, a) && CutOff(buf, pos + |a|, b)
  {
    if |buf| < pos + |a| {
      assert (a + b)[..|buf| - pos] == a[..|buf| - pos];
    } else {
      assert buf[pos..pos + |a|] == buf[pos..][..|a|] == (a + b)[..|a|];
      assert buf[pos + |a|..] == buf[pos..][|a|..] == b[..|buf| - pos - |a|];
    }
  }

  ghost predicate ReadsBack<K(!new), V(!new)>(bytes: V -> seq<u8>, get: Getter<K, V>, kindOf: V -> K, v: V) {
    forall buf: seq<u8>, pos: nat ::
      && (Stands(buf, pos, bytes(v)) ==> get(kindOf(v), buf, pos) == Success((v, pos + |bytes(v)|)))
      && (CutOff(buf, pos, bytes(v)) ==> get(kindOf(v), buf, pos).Failure?)
  }

  ghost predicate Codec<K(!new), V(!new)>(bytes: V -> seq<u8>, get: Getter<K, V>, kindOf: V -> K, ok: V -> bool) {
    forall v | ok(v) :: ReadsBack(bytes, get, kindOf, v)
  }

  lemma {:induction false} GetKeepsShape<K, V>(get: Getter<K, V>, kindOf: V -> K, kinds: seq<K>,
                                               buf: seq<u8>, pos: nat)
    requires forall kind, b, p | get(kind, b, p).Success? :: kindOf(get(kind, b, p).value.0) == kind
    ensures var r := GetAll(get, kinds, buf, pos); r.Success? ==> Shaped(kindOf, r.value.0, kinds)
  {
    if kinds != [] {
      GetKeepsShape(get, kindOf, kinds[..|kinds| - 1], buf, pos);
    }
  }

  // A list that stands complete in the buffer is read back, whatever follows it ...
  lemma {:induction false} AllReadBack<K(!new), V(!new)>(bytes: V -> seq<u8>, get: Getter<K, V>, kindOf: V -> K,
                                                         ok: V -> bool, values: seq<V>, kinds: seq<K>,
                                                         buf: seq<u8>, pos: nat)
    requires Codec(bytes, get, kindOf, ok) && All(ok, values) && Shaped(kindOf, values, kinds)
    requires Stands(buf, pos, BytesOf(bytes, values))
    ensures GetAll(get, kinds, buf, pos) == Success((values, pos + |BytesOf(bytes, values)|))
  {
    if values != [] {
      var n := |values| - 1;
      var front, v := values[..n], values[n];
      assert ReadsBack(bytes, get, kindOf, v) && values == front + [v];
      StandsSplit(buf, pos, BytesOf(bytes, front), bytes(v));
      AllReadBack(bytes, get, kindOf, ok, front, kinds[..n], buf, pos);
    }
  }

  // ... and one cut short anywhere is always noticed.
  lemma {:induction false} CutOffIsNoticed<K(!new), V(!new)>(bytes: V -> seq<u8>, get: Getter<K, V>, kindOf: V -> K,
                                                             ok: V -> bool, values: seq<V>, kinds: seq<K>,
                                                             buf: seq<u8>, pos: nat)
    requires Codec(bytes, get, kindOf, ok) && All(ok, values) && Shaped(kindOf, values, kinds)
    requires CutOff(buf, pos, BytesOf(bytes, values))
    ensures GetAll(get, kinds, buf, pos).Failure?
  {
    if values != [] {
      var n := |values| - 1;
      var front, v := values[..n], values[n];
      assert ReadsBack(bytes, get, kindOf, v);
      CutOffSplit(buf, pos, BytesOf(bytes, front), bytes(v));
      if |buf| < pos + |BytesOf(bytes, front)| {
        CutOffIsNoticed(bytes, get, kindOf, ok, front, kinds[..n], buf, pos);
      } else {
        AllReadBack(bytes, get, kindOf, ok, front, kinds[..n], buf, pos);
      }
    }
  }

  // --- Writing ---------------------------------------------------------------

  // The body bytes written so far, and why writing stopped, if it did.
  datatype Progress = Progress(written: seq<u8>, failure: Option<WireError>)
  type Putter<!V> = (seq<u8>, V) -> Progress

  function PutAll<V>(put: Putter<V>, values: seq<V>): Progress {
    if values == [] then Progress([], None)
    else
      var before := PutAll(put, values[..|values| - 1]);
      if before.failure.Some? then before else put(before.written, values[|values| - 1])
  }

  // A value is appended exactly when it is short enough and there is room.
  predicate Appends<V>(put: Putter<V>, bytes: V -> seq<u8>, ok: V -> bool, room: nat, written: seq<u8>, v: V) {
    var next := put(written, v);
    && (next.failure.None? <==> ok(v) && |written + bytes(v)| <= room)
    && (next.failure.None? ==> next.written == written + bytes(v))
  }

  lemma {:induction false} PutAllIff<V(!new)>(put: Putter<V>, bytes: V -> seq<u8>, ok: V -> bool, room: nat,
                                              values: seq<V>)
    requires forall written, v | |written| <= room :: Appends(put, bytes, ok, room, written, v)
    ensures var p := PutAll(put, values);
            && (p.failure.None? <==> All(ok, values) && |BytesOf(bytes, values)| <= room)
            && (p.failure.None? ==> p.written == BytesOf(bytes, values))
  {
    if values != [] {
      var front, last := values[..|values| - 1], values[|values| - 1];
      PutAllIff(put, bytes, ok, room, front);
      assert All(ok, values) <==> All(ok, front) && ok(last);
      var before := PutAll(put, front);
      assert before.failure.None? ==> Appends(put, bytes, ok, room, before.written, last);
    }
  }

  lemma {:induction false} FailureSticks<V>(put: Putter<V>, values: seq<V>, i: nat)
    requires i <= |values| && PutAll(put, values[..i]).failure.Some?
    ensures PutAll(put, values) == PutAll(put, values[..i])
  {
    if i == |values| {
      assert values[..i] == values;
    } else {
      assert values[..|values| - 1][..i] == values[..i];
      FailureSticks(put, values[..|values| - 1], i);
    }
  }
}
