/** The walk of `acpi/madt.c` over the MADT's entries (section 5.2.12 of the ACPI Specification). */
module Madt {

  newtype byte = x: int | 0 <= x < 256

  const HEADER: nat := 44   // sizeof(struct madt): the common table header, two more words

  /** `table` is memory from the table on; one byte past its end can be read too. */
  predicate Readable(table: seq<byte>, length: nat) { HEADER <= length < |table| }

  function Id(table: seq<byte>, length: nat, off: nat): byte
    requires Readable(table, length) && off + HEADER < length
  {
    table[HEADER + off]
  }

  function Len(table: seq<byte>, length: nat, off: nat): nat
    requires Readable(table, length) && off + HEADER < length
  {
    table[HEADER + off + 1] as nat
  }

  /** The offset after `n` rounds of the loop from `off` on, staying put once the loop would have ended. */
  function Offset(table: seq<byte>, length: nat, off: nat, n: nat): nat
    requires Readable(table, length)
    decreases n
  {
    if n == 0 || off + HEADER >= length then off
    else Offset(table, length, off + Len(table, length, off), n - 1)
  }

  /** The walk from `off` on meets no entry of length zero. */
  ghost predicate Advances(table: seq<byte>, length: nat, off: nat)
    requires Readable(table, length)
    decreases length - off
  {
    off + HEADER >= length || (Len(table, length, off) > 0 && Advances(table, length, off + Len(table, length, off)))
  }

  /** The loop ends exactly when it meets no entry of length zero. */
  lemma EndsIff(table: seq<byte>, length: nat, off: nat)
    requires Readable(table, length)
    ensures Advances(table, length, off) <==> exists n: nat :: Offset(table, length, off, n) + HEADER >= length
  {
    if Advances(table, length, off) {
      EndsWithin(table, length, off);
    }
    if n: nat :| Offset(table, length, off, n) + HEADER >= length {
      EndedAdvances(table, length, off, n);
    }
  }

  /** Such a table: one entry, all zeros. */
  lemma ZeroLengthEntry()
    ensures var table := seq(47, _ => 0 as byte);
      Readable(table, 46) && forall n: nat :: Offset(table, 46, 0, n) == 0
  {
    var table := seq(47, _ => 0 as byte);
    forall n: nat ensures Offset(table, 46, 0, n) == 0 {
      Stuck(table, 46, 0, n);
    }
  }

  lemma {:induction false} EndsWithin(table: seq<byte>, length: nat, off: nat)
    requires Readable(table, length) && Advances(table, length, off)
    ensures exists n: nat :: Offset(table, length, off, n) + HEADER >= length
    decreases length - off
  {
    if off + HEADER >= length {
      assert Offset(table, length, off, 0) + HEADER >= length;
    } else {
      var next := off + Len(table, length, off);
      EndsWithin(table, length, next);
      var n: nat :| Offset(table, length, next, n) + HEADER >= length;
      assert Offset(table, length, off, n + 1) + HEADER >= length;
    }
  }

  lemma {:induction false} EndedAdvances(table: seq<byte>, length: nat, off: nat, n: nat)
    requires Readable(table, length) && Offset(table, length, off, n) + HEADER >= length
    ensures Advances(table, length, off)
    decreases n
  {
    if off + HEADER < length {
      var next := off + Len(table, length, off);
      if next == off {
        Stuck(table, length, off, n);
      }
      EndedAdvances(table, length, next, n - 1);
    }
  }

  lemma {:induction false} Stuck(table: seq<byte>, length: nat, off: nat, n: nat)
    requires Readable(table, length) && off + HEADER < length && Len(table, length, off) == 0
    ensures Offset(table, length, off, n) == off
    decreases n
  {
    if n > 0 {
      Stuck(table, length, off, n - 1);
    }
  }

  /** The offsets of the entries the walk visits, in order. */
  ghost function Visited(table: seq<byte>, length: nat, off: nat): seq<nat>
    requires Readable(table, length) && Advances(table, length, off)
    decreases length - off
  {
    if off + HEADER >= length then []
    else [off] + Visited(table, length, off + Len(table, length, off))
  }

  /** Those of the given type. */
  ghost function Found(table: seq<byte>, length: nat, off: nat, id: byte): seq<nat>
    requires Readable(table, length) && Advances(table, length, off)
    decreases length - off
  {
    if off + HEADER >= length then []
    else if Id(table, length, off) == id then [off] + Found(table, length, off + Len(table, length, off), id)
    else Found(table, length, off + Len(table, length, off), id)
  }

  /** One round: a vector that gets the entry exactly when it is of its type stays on course. */
  lemma PushStep(table: seq<byte>, length: nat, off: nat, id: byte, v: seq<nat>, all: seq<nat>)
    requires Readable(table, length) && Advances(table, length, off) && off + HEADER < length
    requires v + Found(table, length, off, id) == all
    ensures (if Id(table, length, off) == id then v + [off] else v)
            + Found(table, length, off + Len(table, length, off), id) == all
  {
    Regroup(v, [off], Found(table, length, off + Len(table, length, off), id));
  }

  lemma Regroup(a: seq<nat>, b: seq<nat>, c: seq<nat>)
    ensures a + (b + c) == a + b + c
  {}

  /** `madt_init`: each vector gets the entries of its type, x2APIC ones only in x2APIC mode. When the bytes from byte
      44 to the end are a list of entries, it is the places of those of its type. */
  method MadtInit(table: seq<byte>, length: nat, x2apic: bool)
    returns (lapics: seq<nat>, x2apics: seq<nat>, ioApics: seq<nat>, isos: seq<nat>, nmis: seq<nat>)
    requires Readable(table, length) && Advances(table, length, 0)
    ensures lapics == Found(table, length, 0, 0)
    ensures x2apics == if x2apic then Found(table, length, 0, 9) else []
    ensures ioApics == Found(table, length, 0, 1) && isos == Found(table, length, 0, 2)
            && nmis == Found(table, length, 0, 4)
    ensures forall es | Encodable(es) && 44 + |EncodeAll(es)| == length && table[44..length] == EncodeAll(es) ::
              && lapics == StartsOf(es, 0, 0) && x2apics == (if x2apic then StartsOf(es, 0, 9) else [])
              && ioApics == StartsOf(es, 0, 1) && isos == StartsOf(es, 0, 2) && nmis == StartsOf(es, 0, 4)
  {
    lapics, x2apics, ioApics, isos, nmis := SortEntries(table, length, x2apic);
    FoundAll(table, length);
  }

  /** The loop. */
  method SortEntries(table: seq<byte>, length: nat, x2apic: bool)
    returns (lapics: seq<nat>, x2apics: seq<nat>, ioApics: seq<nat>, isos: seq<nat>, nmis: seq<nat>)
    requires Readable(table, length) && Advances(table, length, 0)
    ensures lapics == Found(table, length, 0, 0)
    ensures x2apics == if x2apic then Found(table, length, 0, 9) else []
    ensures ioApics == Found(table, length, 0, 1) && isos == Found(table, length, 0, 2)
            && nmis == Found(table, length, 0, 4)
  {
    lapics, x2apics, ioApics, isos, nmis := [], [], [], [], [];
    var offset := 0;
    while offset + HEADER < length
      invariant Advances(table, length, offset)
      invariant lapics + Found(table, length, offset, 0) == Found(table, length, 0, 0)
      invariant if x2apic then x2apics + Found(table, length, offset, 9) == Found(table, length, 0, 9)
                else x2apics == []
      invariant ioApics + Found(table, length, offset, 1) == Found(table, length, 0, 1)
      invariant isos + Found(table, length, offset, 2) == Found(table, length, 0, 2)
      invariant nmis + Found(table, length, offset, 4) == Found(table, length, 0, 4)
      decreases length - offset
    {
      PushStep(table, length, offset, 0, lapics, Found(table, length, 0, 0));
      if x2apic {
        PushStep(table, length, offset, 9, x2apics, Found(table, length, 0, 9));
      }
      PushStep(table, length, offset, 1, ioApics, Found(table, length, 0, 1));
      PushStep(table, length, offset, 2, isos, Found(table, length, 0, 2));
      PushStep(table, length, offset, 4, nmis, Found(table, length, 0, 4));
      match table[HEADER + offset] as int {
        case 0 => lapics := lapics + [offset];
        case 9 =>
          if x2apic {
            x2apics := x2apics + [offset];
          }
        case 1 => ioApics := ioApics + [offset];
        case 2 => isos := isos + [offset];
        case 4 => nmis := nmis + [offset];
        case _ =>
      }
      offset := offset + table[HEADER + offset + 1] as nat;
    }
  }

  // ---- round trip ----

  datatype Entry = Entry(id: byte, body: seq<byte>)

  /** An entry as bytes: type, length, body. */
  function Encode(e: Entry): seq<byte>
    requires |e.body| < 254
  {
    [e.id, (2 + |e.body|) as byte] + e.body
  }

  predicate Encodable(es: seq<Entry>) { forall i | 0 <= i < |es| :: |es[i].body| < 254 }

  function EncodeAll(es: seq<Entry>): seq<byte>
    requires Encodable(es)
  {
    if es == [] then [] else Encode(es[0]) + EncodeAll(es[1..])
  }

  /** Where the entries start when the first one starts at `off`. */
  function Starts(es: seq<Entry>, off: nat): seq<nat> {
    if es == [] then [] else [off] + Starts(es[1..], off + 2 + |es[0].body|)
  }

  lemma {:induction false} StartsLength(es: seq<Entry>, off: nat)
    ensures |Starts(es, off)| == |es|
  {
    if es != [] {
      StartsLength(es[1..], off + 2 + |es[0].body|);
    }
  }

  /** The starts of the entries of one type. */
  function StartsOf(es: seq<Entry>, off: nat, id: byte): seq<nat> {
    if es == [] then []
    else if es[0].id == id then [off] + StartsOf(es[1..], off + 2 + |es[0].body|, id)
    else StartsOf(es[1..], off + 2 + |es[0].body|, id)
  }

  /** Walking a serialised list of entries ends, visits exactly those entries in order, and finds of every type
      precisely the entries of that type, in order, whatever precedes and follows them in memory. The first offset is
      counted from byte 44, the end of the table's header. */
  lemma RoundTrip(before: seq<byte>, es: seq<Entry>, after: seq<byte>, length: nat, id: byte)
    requires Encodable(es) && |before| >= 44 && |after| > 0 && length == |before| + |EncodeAll(es)|
    ensures var table, off := before + EncodeAll(es) + after, |before| - 44;
      && Readable(table, length) && Advances(table, length, off)
      && Visited(table, length, off) == Starts(es, off) && Found(table, length, off, id) == StartsOf(es, off, id)
  {
    var table, off := before + EncodeAll(es) + after, |before| - 44;
    assert table[HEADER + off..length] == EncodeAll(es);
    HoldsReads(table, length, off, es);
    WalkAdvances(table, length, off, es);
    WalkEncoded(table, length, off, es);
    FoundEncoded(table, length, off, es, id);
  }

  lemma FoundAll(table: seq<byte>, length: nat)
    requires Readable(table, length) && Advances(table, length, 0)
    ensures forall es, id: byte | Holds(table, length, 0, es) :: Found(table, length, 0, id) == StartsOf(es, 0, id)
  {
    forall es, id: byte | Holds(table, length, 0, es) ensures Found(table, length, 0, id) == StartsOf(es, 0, id) {
      HoldsReads(table, length, 0, es);
      FoundEncoded(table, length, 0, es, id);
    }
  }

  /** The bytes from offset `off` to the end are the entries. */
  ghost predicate Holds(table: seq<byte>, length: nat, off: nat, es: seq<Entry>) {
    && Encodable(es) && Readable(table, length) && HEADER + off + |EncodeAll(es)| == length
    && table[HEADER + off..length] == EncodeAll(es)
  }

  lemma HoldsRest(table: seq<byte>, length: nat, off: nat, es: seq<Entry>)
    requires Holds(table, length, off, es) && es != []
    ensures var e := es[0];
      && off + HEADER < length && Id(table, length, off) == e.id && Len(table, length, off) == 2 + |e.body|
      && Holds(table, length, off + 2 + |e.body|, es[1..])
  {
    var e, rest := es[0], es[1..];
    var all := EncodeAll(es);
    assert all == Encode(e) + EncodeAll(rest);
    FirstEntry(table, length, off, e, all);
    assert table[HEADER + off + |Encode(e)|..length] == all[|Encode(e)|..];
  }

  /** The bytes of the first entry. */
  lemma HoldsEntry(table: seq<byte>, length: nat, off: nat, es: seq<Entry>)
    requires Holds(table, length, off, es) && es != []
    ensures HEADER + off + |Encode(es[0])| <= length
            && table[HEADER + off..HEADER + off + |Encode(es[0])|] == Encode(es[0])
  {
    var all := EncodeAll(es);
    assert all == Encode(es[0]) + EncodeAll(es[1..]);
    assert table[HEADER + off..HEADER + off + |Encode(es[0])|] == all[..|Encode(es[0])|];
  }

  /** Seen from `off` on, type and length bytes are those of the entries, which end where the table does. */
  ghost predicate Reads(table: seq<byte>, length: nat, off: nat, es: seq<Entry>)
    decreases |es|
  {
    && Readable(table, length)
    && if es == [] then off + HEADER == length
       else
         && off + HEADER < length && Id(table, length, off) == es[0].id && Len(table, length, off) == 2 + |es[0].body|
         && Reads(table, length, off + 2 + |es[0].body|, es[1..])
  }

  lemma {:induction false} HoldsReads(table: seq<byte>, length: nat, off: nat, es: seq<Entry>)
    requires Holds(table, length, off, es)
    ensures Reads(table, length, off, es)
    decreases |es|
  {
    if es != [] {
      HoldsRest(table, length, off, es);
      HoldsReads(table, length, off + 2 + |es[0].body|, es[1..]);
    }
  }

  lemma {:induction false} WalkAdvances(table: seq<byte>, length: nat, off: nat, es: seq<Entry>)
    requires Reads(table, length, off, es)
    ensures Advances(table, length, off)
    decreases |es|
  {
    if es != [] {
      WalkAdvances(table, length, off + 2 + |es[0].body|, es[1..]);
    }
  }

  lemma {:induction false} WalkEncoded(table: seq<byte>, length: nat, off: nat, es: seq<Entry>)
    requires Reads(table, length, off, es) && Advances(table, length, off)
    ensures Visited(table, length, off) == Starts(es, off)
    decreases |es|
  {
    if es != [] {
      WalkEncoded(table, length, off + 2 + |es[0].body|, es[1..]);
    }
  }

  lemma {:induction false} FoundEncoded(table: seq<byte>, length: nat, off: nat, es: seq<Entry>, id: byte)
    requires Reads(table, length, off, es) && Advances(table, length, off)
    ensures Found(table, length, off, id) == StartsOf(es, off, id)
    decreases |es|
  {
    if es != [] {
      FoundEncoded(table, length, off + 2 + |es[0].body|, es[1..], id);
    }
  }

  lemma FirstEntry(table: seq<byte>, length: nat, off: nat, e: Entry, all: seq<byte>)
    requires Readable(table, length) && HEADER + off + |all| == length && table[HEADER + off..length] == all
    requires |e.body| < 254 && Encode(e) <= all
    ensures off + HEADER < length && Id(table, length, off) == e.id && Len(table, length, off) == 2 + |e.body|
  {
    assert all[0] == e.id && all[1] == (2 + |e.body|) as byte;
    assert table[HEADER + off] == all[0] && table[HEADER + off + 1] == all[1];
  }

  /** The bytes at each visited offset are the entry's own. */
  lemma {:induction false} EntriesAreIntact(table: seq<byte>, length: nat, off: nat, es: seq<Entry>, i: nat)
    requires Holds(table, length, off, es) && i < |es|
    ensures |Starts(es, off)| == |es|
    ensures var at := 44 + Starts(es, off)[i];
      at + |Encode(es[i])| <= length && table[at..at + |Encode(es[i])|] == Encode(es[i])
    decreases |es|
  {
    StartsLength(es, off);
    HoldsRest(table, length, off, es);
    HoldsEntry(table, length, off, es);
    if i > 0 {
      var rest, next := es[1..], off + 2 + |es[0].body|;
      assert es[i] == rest[i - 1];
      assert Starts(es, off)[i] == Starts(rest, next)[i - 1];
      EntriesAreIntact(table, length, next, rest, i - 1);
    }
  }
}
