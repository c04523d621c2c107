/** The stored fields reader (codecs/simpletext/storedfieldsreader.go). */
module StoredFieldsReader {
  import opened Bytes
  import opened Text
  import opened Numerals
  import opened StoredFields

  datatype Status = Yes | No | Stop

  /** A visitor's decision, which may depend on what it has been given so far. */
  datatype Chooser = Chooser(needs: (seq<(int, Value)>, int) -> Status)

  function Needs(c: Chooser, seen: seq<(int, Value)>, number: int): Status {
    c.needs(seen, number)
  }

  /** What a visitor is given of the fields from the j-th on: those it accepts, in
      order, up to the one at which it stops. */
  function Delivered(c: Chooser, seen: seq<(int, Value)>, d: Document, j: nat): seq<(int, Value)>
    decreases |d| - j
  {
    if j >= |d| then seen
    else
      match Needs(c, seen, d[j].number)
      case Yes => Delivered(c, seen + [(d[j].number as int, d[j].value)], d, j + 1)
      case No => Delivered(c, seen, d, j + 1)
      case Stop => seen
  }

  /** What a visitor that is not stopped has been given before field k. */
  function Given(c: Chooser, seen: seq<(int, Value)>, d: Document, k: nat): seq<(int, Value)>
    requires k <= |d|
  {
    if k == 0 then seen
    else
      var before := Given(c, seen, d, k - 1);
      if Needs(c, before, d[k - 1].number).Yes? then before + [(d[k - 1].number as int, d[k - 1].value)] else before
  }

  /** It stops at field k, or there is none. */
  ghost predicate FirstStop(c: Chooser, seen: seq<(int, Value)>, d: Document, k: nat) {
    && k <= |d| && (k < |d| ==> Needs(c, Given(c, seen, d, k), d[k].number).Stop?)
    && forall i: nat | i < k :: !Needs(c, Given(c, seen, d, i), d[i].number).Stop?
  }

  lemma GivenNext(c: Chooser, seen: seq<(int, Value)>, d: Document, k: nat)
    requires k < |d|
    ensures var before := Given(c, seen, d, k);
            Given(c, seen, d, k + 1) ==
            if Needs(c, before, d[k].number).Yes? then before + [(d[k].number as int, d[k].value)] else before
  {
  }

  lemma {:induction false} DeliveredFrom(c: Chooser, seen: seq<(int, Value)>, d: Document, j: nat, k: nat)
    requires FirstStop(c, seen, d, k) && j <= k
    ensures Delivered(c, Given(c, seen, d, j), d, j) == Given(c, seen, d, k)
    decreases k - j
  {
    if j < k {
      GivenNext(c, seen, d, j);
      hide Given;
      DeliveredFrom(c, seen, d, j + 1, k);
    }
  }

  /** A visitor is given what it accepts before the first field at which it stops; when it
      accepts every field, that is the whole document. */
  lemma {:induction false} DeliveredUntil(c: Chooser, seen: seq<(int, Value)>, d: Document, k: nat)
    requires FirstStop(c, seen, d, k)
    ensures Delivered(c, seen, d, 0) == Given(c, seen, d, k)
    ensures (forall s: seq<(int, Value)>, n: int :: Needs(c, s, n).Yes?) ==>
              Delivered(c, seen, d, 0) == seen + seq(|d|, i requires 0 <= i < |d| => (d[i].number as int, d[i].value))
  {
    DeliveredFrom(c, seen, d, 0, k);
    if forall s: seq<(int, Value)>, n: int :: Needs(c, s, n).Yes? {
      GivenAll(c, seen, d, k);
    }
  }

  lemma {:induction false} GivenAll(c: Chooser, seen: seq<(int, Value)>, d: Document, k: nat)
    requires k <= |d| && forall s: seq<(int, Value)>, n: int :: Needs(c, s, n).Yes?
    ensures Given(c, seen, d, k) == seen + seq(k, i requires 0 <= i < k => (d[i].number as int, d[i].value))
  {
    if k > 0 {
      GivenAll(c, seen, d, k - 1);
    }
  }

  class StoredFieldVisitor {
    const chooser: Chooser
    var seen: seq<(int, Value)>

    constructor (chooser: Chooser)
      ensures this.chooser == chooser && seen == []
    {
      this.chooser := chooser;
      seen := [];
    }

    method NeedsField(number: int) returns (status: Status)
      ensures status == Needs(chooser, seen, number)
    {
      return chooser.needs(seen, number);
    }

    method TakeField(number: int, value: Value)
      modifies this
      ensures seen == old(seen) + [(number, value)]
    {
      seen := seen + [(number, value)];
    }
  }

  // Where a document's lines stand

  lemma {:induction false} DocumentSize(d: Document)
    ensures |DocumentLines(d)| == 4 * |d|
  {
    if d != [] {
      DocumentSize(d[..|d| - 1]);
    }
  }

  lemma {:induction false} DocumentLineIs(d: Document, j: nat, i: nat)
    requires j < |d| && i < 4
    ensures |DocumentLines(d)| == 4 * |d| && DocumentLines(d)[4 * j + i] == FieldLine(d[j], i)
  {
    hide FieldLine;
    var n := |d| - 1;
    DocumentSize(d);
    DocumentSize(d[..n]);
    if j < n {
      DocumentLineIs(d[..n], j, i);
      LineBefore(DocumentLines(d[..n]), FieldLines(d[n]), 4 * j + i);
    } else {
      assert FieldLines(d[n])[i] == FieldLine(d[n], i);
    }
  }

  lemma LineBefore(a: seq<string>, b: seq<string>, i: nat)
    requires i < |a|
    ensures (a + b)[i] == a[i]
  {
  }

  /** From line k on stand the fields of a document, and behind them another line. */
  ghost predicate DocumentAt(lines: seq<string>, k: nat, d: Document) {
    var e := k + |DocumentLines(d)|;
    && e < |lines| && lines[k..e] == DocumentLines(d)
    && (HasPrefix(lines[e], STORED_FIELD_DOC) || lines[e] == STORED_FIELD_END)
  }

  lemma FieldLineAt(lines: seq<string>, k: nat, d: Document, j: nat, i: nat)
    requires DocumentAt(lines, k, d) && j < |d| && i < 4
    ensures k + 4 * j + i < |lines| && lines[k + 4 * j + i] == FieldLine(d[j], i)
  {
    hide DocumentLines;
    DocumentLineIs(d, j, i);
    assert lines[k + 4 * j + i] == lines[k..k + |DocumentLines(d)|][4 * j + i];
  }

  lemma DocumentEnds(lines: seq<string>, k: nat, d: Document)
    requires DocumentAt(lines, k, d)
    ensures k + 4 * |d| < |lines| && !HasPrefix(lines[k + 4 * |d|], STORED_FIELD_FIELD)
  {
    DocumentSize(d);
    OtherLine(lines[k + 4 * |d|]);
  }

  /** The four lines of a field. */
  lemma FourLines(f: Field)
    ensures HasPrefix(FieldLine(f, 0), STORED_FIELD_FIELD)
    ensures Atoi(FieldLine(f, 0)[|STORED_FIELD_FIELD|..]) == Some(f.number)
    ensures HasPrefix(FieldLine(f, 1), STORED_FIELD_NAME)
    ensures HasPrefix(FieldLine(f, 2), STORED_FIELD_TYPE)
    ensures FieldLine(f, 2)[|STORED_FIELD_TYPE|..] == TypeName(f.value)
    ensures HasPrefix(FieldLine(f, 3), STORED_FIELD_VALUE)
    ensures FieldLine(f, 3)[|STORED_FIELD_VALUE|..] == ValueText(f.value)
  {
    hide HasPrefix, Itoa, ParseInt;
    Powers.LargePowers();
    ItoaRoundTrip(f.number, 64);
    OwnLabel(STORED_FIELD_FIELD, Itoa(f.number));
    OwnLabel(STORED_FIELD_NAME, f.name);
    OwnLabel(STORED_FIELD_TYPE, TypeName(f.value));
    OwnLabel(STORED_FIELD_VALUE, ValueText(f.value));
  }

  // The value of a field

  /** The value a type name and a text stand for; an unknown name or a number that
      does not parse is an error. */
  function ValueOf(typeName: string, text: string): Option<Value> {
    if typeName == TYPE_STRING then Some(StringValue(text))
    else if typeName == TYPE_BINARY then Some(BinaryValue(text))
    else if typeName == TYPE_INT then
      match ParseInt(text, 10, 32)
      case Some(n) => ValueInt(n)
      case None => None
    else if typeName == TYPE_LONG then
      match ParseInt(text, 10, 64)
      case Some(n) => ValueLong(n)
      case None => None
    else None
  }

  function ValueInt(n: int): Option<Value> {
    if -0x8000_0000 <= n < 0x8000_0000 then Some(IntValue(n)) else None
  }

  function ValueLong(n: int): Option<Value> {
    if -0x8000_0000_0000_0000 <= n < 0x8000_0000_0000_0000 then Some(LongValue(n)) else None
  }

  /** Every value is recovered from its type name and its text. */
  lemma ValueRoundTrip(v: Value)
    ensures ValueOf(TypeName(v), ValueText(v)) == Some(v)
  {
    hide ParseInt, Itoa;
    match v
    case StringValue(s) =>
    case BinaryValue(b) => assert TYPE_BINARY != TYPE_STRING;
    case IntValue(n) =>
      assert TYPE_INT[0] == 'i' && TYPE_STRING[0] == 's' && TYPE_BINARY[0] == 'b';
      ThirtyTwo();
      ItoaRoundTrip(n, 32);
    case LongValue(n) =>
      assert TYPE_LONG[0] == 'l' && TYPE_STRING[0] == 's' && TYPE_BINARY[0] == 'b' && TYPE_INT[0] == 'i';
      Powers.LargePowers();
      ItoaRoundTrip(n, 64);
  }

  lemma ThirtyTwo()
    ensures Powers.Pow(2, 31) == 0x8000_0000
  {
    Powers.Pow1(2);
    Powers.PowAdd(2, 1, 1);
    Powers.PowAdd(2, 2, 1);
    Powers.PowAdd(2, 3, 3);
    Powers.PowAdd(2, 6, 1);
    Powers.PowAdd(2, 7, 7);
    Powers.PowAdd(2, 14, 1);
    Powers.PowAdd(2, 15, 15);
    Powers.PowAdd(2, 30, 1);
  }

  datatype Outcome = Next | Stopped | Failed

  class Reader {
    const input: IndexInput
    var offsets: seq<nat>

    constructor (input: IndexInput)
      ensures this.input == input && offsets == []
    {
      this.input := input;
      offsets := [];
    }

    /** readIndex: an offset behind every document line, up to the end line. */
    method ReadIndex(ghost lines: seq<string>, ghost e: nat) returns (ok: bool)
      requires input.pos == 0
      modifies this, input
      ensures At(input.data, 0, Print(lines)) && e < |lines| && lines[e] == STORED_FIELD_END
              && (forall i | 0 <= i < e :: lines[i] != STORED_FIELD_END) ==>
                ok && offsets == Offsets(lines[..e], 0)
    {
      hide Print, Offsets, LineAt, At, Reading;
      ghost var good := At(input.data, 0, Print(lines)) && e < |lines| && lines[e] == STORED_FIELD_END
                        && forall i | 0 <= i < e :: lines[i] != STORED_FIELD_END;
      if good {
        StartReading(input.data, 0, lines);
        NoOffsets(lines[..0], 0);
      }
      offsets := [];
      var scratch := "";
      ghost var i := 0;
      while scratch != STORED_FIELD_END
        invariant good ==>
                  i <= e + 1 && Reading(input.data, 0, lines, input.pos, i) && offsets == Offsets(lines[..i], 0)
        invariant good && scratch == STORED_FIELD_END ==> i == e + 1
        invariant good && scratch != STORED_FIELD_END ==> i <= e
        decreases |input.data| - input.pos, scratch != STORED_FIELD_END
      {
        if good {
          ReadingLine(input.data, 0, lines, input.pos, i);
        }
        var line := input.ReadLine();
        if line.None? {
          return false;
        }
        scratch := line.value;
        if HasPrefix(scratch, STORED_FIELD_DOC) {
          offsets := offsets + [input.pos];
        }
        if good {
          NextOffset(input.data, lines, i, input.pos);
        }
        i := i + 1;
      }
      if good {
        EndHasNone(lines, e);
      }
      return true;
    }

    /** readField: a value of the given type. */
    method ReadField(typeName: string, number: int, visitor: StoredFieldVisitor,
                     ghost lines: seq<string>, ghost k: nat, ghost f: Field, ghost good: bool) returns (ok: bool)
      requires good ==> Reading(input.data, 0, lines, input.pos, k) && k < |lines| && lines[k] == FieldLine(f, 3)
      requires good ==> typeName == TypeName(f.value)
      modifies input, visitor
      ensures good ==>
                ok && Reading(input.data, 0, lines, input.pos, k + 1)
                  && visitor.seen == old(visitor.seen) + [(number, f.value)]
      ensures old(input.pos) <= input.pos
    {
      hide Print, LineAt, At, Reading, FieldLine, ValueOf;
      if good {
        ReadingLine(input.data, 0, lines, input.pos, k);
        FourLines(f);
        ValueRoundTrip(f.value);
      }
      var line := input.ReadLine();
      if line.None? {
        return false;
      }
      var value := ValueOf(typeName, Rest(line.value, |STORED_FIELD_VALUE|));
      if value.None? {
        return false;
      }
      visitor.TakeField(number, value.value);
      return true;
    }

    /** The lines of one field behind its number: name, type and, unless the visitor
        stops, value. */
    method VisitField(number: int, visitor: StoredFieldVisitor,
                      ghost lines: seq<string>, ghost k: nat, ghost f: Field, ghost good: bool) returns (r: Outcome)
      requires good ==> Reading(input.data, 0, lines, input.pos, k) && number == f.number
      requires good ==> forall i: nat | 1 <= i < 4 :: k + i - 1 < |lines| && lines[k + i - 1] == FieldLine(f, i)
      modifies input, visitor
      ensures good ==> r == if Needs(visitor.chooser, old(visitor.seen), number) == Stop then Stopped else Next
      ensures good && r == Next ==> Reading(input.data, 0, lines, input.pos, k + 3)
      ensures good ==>
                visitor.seen == if Needs(visitor.chooser, old(visitor.seen), number) == Yes
                                then old(visitor.seen) + [(number, f.value)] else old(visitor.seen)
      ensures old(input.pos) <= input.pos
    {
      hide Print, LineAt, At, Reading, FieldLine;
      if good {
        FourLines(f);
        TypeKnown(f.value);
        ReadingLine(input.data, 0, lines, input.pos, k);
      }
      var name := input.ReadLine();
      if name.None? || !HasPrefix(name.value, STORED_FIELD_NAME) {
        return Failed;
      }
      if good {
        ReadingLine(input.data, 0, lines, input.pos, k + 1);
      }
      var line := input.ReadLine();
      if line.None? || !HasPrefix(line.value, STORED_FIELD_TYPE) {
        return Failed;
      }
      var typeName := line.value[|STORED_FIELD_TYPE|..];
      if !KnownType(typeName) {
        return Failed;
      }
      var status := visitor.NeedsField(number);
      match status
      case Yes =>
        var ok := ReadField(typeName, number, visitor, lines, k + 2, f, good);
        return if ok then Next else Failed;
      case No =>
        if good {
          ReadingLine(input.data, 0, lines, input.pos, k + 2);
        }
        var value := input.ReadLine();
        return if value.Some? && HasPrefix(value.value, STORED_FIELD_VALUE) then Next else Failed;
      case Stop =>
        return Stopped;
    }

    /** VisitDocument */
    method VisitDocument(docID: nat, visitor: StoredFieldVisitor, ghost lines: seq<string>, ghost k: nat,
                         ghost d: Document)
      returns (ok: bool)
      requires docID < |offsets|
      modifies input, visitor
      ensures Reading(input.data, 0, lines, offsets[docID], k) && DocumentAt(lines, k, d) ==>
                ok && visitor.seen == Delivered(visitor.chooser, old(visitor.seen), d, 0)
    {
      hide Print, LineAt, At, Reading, FieldLine, DocumentAt;
      input.Seek(offsets[docID]);
      ghost var good := Reading(input.data, 0, lines, input.pos, k) && DocumentAt(lines, k, d);
      ghost var j := 0;
      while true
        invariant good ==> j <= |d| && Reading(input.data, 0, lines, input.pos, k + 4 * j)
        invariant good ==>
                  Delivered(visitor.chooser, old(visitor.seen), d, 0) == Delivered(visitor.chooser, visitor.seen, d, j)
        decreases |input.data| - input.pos
      {
        ghost var f := if good && j < |d| then d[j] else Field(0, "", StringValue(""));
        if good {
          DocumentEnds(lines, k, d);
          if j < |d| {
            FieldAt(lines, k, d, j);
            FourLines(d[j]);
          }
          ReadingLine(input.data, 0, lines, input.pos, k + 4 * j);
        }
        var line := input.ReadLine();
        if line.None? {
          return false;
        }
        if !HasPrefix(line.value, STORED_FIELD_FIELD) {
          return true;
        }
        var number := Atoi(line.value[|STORED_FIELD_FIELD|..]);
        if number.None? {
          return false;
        }
        var outcome := VisitField(number.value, visitor, lines, k + 4 * j + 1, f, good);
        match outcome {
          case Failed => return false;
          case Stopped => return true;
          case Next =>
        }
        j := j + 1;
      }
    }
  }

  /** bytes.Buffer.Next: drops as much as there is. */
  function Rest(s: string, n: nat): string {
    if n <= |s| then s[n..] else []
  }

  predicate KnownType(typeName: string) {
    typeName == TYPE_STRING || typeName == TYPE_BINARY || typeName == TYPE_INT || typeName == TYPE_LONG
  }

  lemma TypeKnown(v: Value)
    ensures KnownType(TypeName(v))
  {
  }

  lemma FieldAt(lines: seq<string>, k: nat, d: Document, j: nat)
    requires DocumentAt(lines, k, d) && j < |d|
    ensures forall i: nat | i < 4 :: k + 4 * j + i < |lines| && lines[k + 4 * j + i] == FieldLine(d[j], i)
  {
    hide FieldLine;
    forall i: nat | i < 4 ensures k + 4 * j + i < |lines| && lines[k + 4 * j + i] == FieldLine(d[j], i) {
      FieldLineAt(lines, k, d, j, i);
    }
  }

  lemma NextOffset(f: string, lines: seq<string>, i: nat, pos: nat)
    requires i < |lines| && Reading(f, 0, lines, pos, i + 1)
    ensures Offsets(lines[..i + 1], 0) ==
            Offsets(lines[..i], 0) + (if HasPrefix(lines[i], STORED_FIELD_DOC) then [pos] else [])
  {
    assert lines[..i + 1][..i] == lines[..i];
  }

  lemma EndHasNone(lines: seq<string>, e: nat)
    requires e < |lines| && lines[e] == STORED_FIELD_END
    ensures Offsets(lines[..e + 1], 0) == Offsets(lines[..e], 0)
  {
    assert lines[..e + 1][..e] == lines[..e];
  }
}
