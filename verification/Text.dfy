/** The escaping line layer of the text formats (codecs/utils/util.go).

    A file is a sequence of `char`; the source's bytes are the characters with
    codes 0 to 255, and nothing below depends on the bound. */
module Text {
  import opened Bytes
  import opened Numerals

  const NEWLINE := '\n'
  const ESCAPE := '\\'

  function EscapeByte(b: char): string {
    if b == NEWLINE || b == ESCAPE then [ESCAPE, b] else [b]
  }

  function Escape(s: string): string {
    if s == [] then [] else EscapeByte(s[0]) + Escape(s[1..])
  }

  /** One printed line. */
  function Line(s: string): string {
    Escape(s) + [NEWLINE]
  }

  function Print(lines: seq<string>): string {
    if lines == [] then [] else Line(lines[0]) + Print(lines[1..])
  }

  /** What reading a line from `pos` yields: the unescaped text and the position
      after the line, or nothing at a premature end of the file. */
  function LineAt(f: string, pos: nat): Option<(string, nat)>
    decreases |f| - pos
  {
    if pos >= |f| then None
    else if f[pos] == ESCAPE then
      if pos + 1 >= |f| then None
      else
        After([f[pos + 1]], LineAt(f, pos + 2))
    else if f[pos] == NEWLINE then Some(([], pos + 1))
    else After([f[pos]], LineAt(f, pos + 1))
  }

  /** The result of a read of which `buf` has been unescaped already. */
  function After(buf: string, rest: Option<(string, nat)>): Option<(string, nat)> {
    match rest
    case None => None
    case Some(r) => Some((buf + r.0, r.1))
  }

  lemma AfterNothing(rest: Option<(string, nat)>)
    ensures After([], rest) == rest
  {
    if rest.Some? {
      assert [] + rest.value.0 == rest.value.0;
    }
  }

  lemma AfterOne(buf: string, c: char, rest: Option<(string, nat)>)
    ensures After(buf, After([c], rest)) == After(buf + [c], rest)
  {
    if rest.Some? {
      assert buf + ([c] + rest.value.0) == (buf + [c]) + rest.value.0;
    }
  }

  /** Printing a line and reading it back is the identity, for every text. */
  lemma {:induction false} LineRoundTrip(f: string, pos: nat, s: string)
    requires At(f, pos, Line(s))
    decreases |s|
    ensures LineAt(f, pos) == Some((s, pos + |Line(s)|))
  {
    AtElement(f, pos, Line(s), 0);
    if s != [] {
      var head := EscapeByte(s[0]);
      assert Line(s) == head + Line(s[1..]);
      AtSplit(f, pos, head, Line(s[1..]));
      if |head| == 2 {
        AtElement(f, pos, Line(s), 1);
      }
      LineRoundTrip(f, pos + |head|, s[1..]);
      assert s == [s[0]] + s[1..];
    }
  }

  lemma {:induction false} EscapeConcat(a: string, b: string)
    ensures Escape(a + b) == Escape(a) + Escape(b)
  {
    if a == [] {
      assert a + b == b;
    } else {
      EscapeConcat(a[1..], b);
      assert (a + b)[1..] == a[1..] + b;
      Associate(EscapeByte(a[0]), Escape(a[1..]), Escape(b));
    }
  }

  lemma EscapeNext(s: string, i: nat)
    requires i < |s|
    ensures Escape(s[..i + 1]) == Escape(s[..i]) + EscapeByte(s[i])
  {
    assert s[..i + 1] == s[..i] + [s[i]];
    EscapeConcat(s[..i], [s[i]]);
    assert [s[i]][1..] == [];
    assert Escape([s[i]]) == EscapeByte(s[i]) + [];
  }

  lemma {:induction false} PrintConcat(a: seq<string>, b: seq<string>)
    ensures Print(a + b) == Print(a) + Print(b)
  {
    if a == [] {
      assert a + b == b;
    } else {
      PrintConcat(a[1..], b);
      assert (a + b)[1..] == a[1..] + b;
      Associate(Line(a[0]), Print(a[1..]), Print(b));
    }
  }

  lemma PrintAfter(start: string, a: seq<string>, b: seq<string>)
    ensures start + Print(a) + Print(b) == start + Print(a + b)
  {
    PrintConcat(a, b);
    Associate(start, Print(a), Print(b));
  }

  lemma PrintOne(s: string)
    ensures Print([s]) == Line(s)
  {
    assert Print([s]) == Line(s) + Print([s][1..]);
    assert [s][1..] == [];
  }

  lemma PrintNext(lines: seq<string>, i: nat)
    requires i < |lines|
    ensures Print(lines[..i + 1]) == Print(lines[..i]) + Line(lines[i])
  {
    assert lines[..i + 1] == lines[..i] + [lines[i]];
    PrintConcat(lines[..i], [lines[i]]);
    PrintOne(lines[i]);
  }

  lemma PrintAll(lines: seq<string>)
    ensures Print(lines[..|lines|]) == Print(lines)
  {
    assert lines[..|lines|] == lines;
  }

  /** What is printed determines the lines. */
  lemma {:induction false} PrintInjective(a: seq<string>, b: seq<string>)
    requires Print(a) == Print(b)
    ensures a == b
  {
    if a != [] && b != [] {
      var f := Print(a);
      assert f[0..|Line(a[0])|] == Line(a[0]) && f[0..|Line(b[0])|] == Line(b[0]);
      LineRoundTrip(f, 0, a[0]);
      LineRoundTrip(f, 0, b[0]);
      var n := |Line(a[0])|;
      assert Print(a[1..]) == f[n..] == Print(b[1..]);
      PrintInjective(a[1..], b[1..]);
      assert a == [a[0]] + a[1..] && b == [b[0]] + b[1..];
    }
  }

  /** The file has these lines from `start` on, and `pos` is where line k begins. */
  ghost predicate Reading(f: string, start: nat, lines: seq<string>, pos: nat, k: nat) {
    k <= |lines| && At(f, start, Print(lines)) && pos == start + |Print(lines[..k])|
  }

  lemma StartReading(f: string, start: nat, lines: seq<string>)
    requires At(f, start, Print(lines))
    ensures Reading(f, start, lines, start, 0)
  {
    assert lines[..0] == [];
  }

  /** Reading line k yields its text and leads to line k + 1. */
  lemma ReadingLine(f: string, start: nat, lines: seq<string>, pos: nat, k: nat)
    requires Reading(f, start, lines, pos, k) && k < |lines|
    ensures LineAt(f, pos) == Some((lines[k], pos + |Line(lines[k])|))
    ensures Reading(f, start, lines, pos + |Line(lines[k])|, k + 1)
  {
    assert lines == lines[..k] + lines[k..];
    PrintConcat(lines[..k], lines[k..]);
    AtSplit(f, start, Print(lines[..k]), Print(lines[k..]));
    AtSplit(f, pos, Line(lines[k]), Print(lines[k..][1..]));
    LineRoundTrip(f, pos, lines[k]);
    PrintNext(lines, k);
  }

  predicate HasPrefix(s: string, tag: string) {
    |tag| <= |s| && s[..|tag|] == tag
  }

  lemma PrefixAt(line: string, tag: string, i: nat)
    requires HasPrefix(line, tag) && i < |tag|
    ensures i < |line| && line[i] == tag[i]
  {
    assert line[..|tag|][i] == line[i];
  }

  lemma OwnLabel(tag: string, rest: string)
    ensures HasPrefix(tag + rest, tag)
    ensures (tag + rest)[|tag|..] == rest
  {
  }

  /** An index output: an append-only file. */
  class IndexOutput {
    var data: string

    constructor ()
      ensures data == []
    {
      data := [];
    }

    function GetFilePointer(): nat
      reads this
    {
      |data|
    }

    method WriteByte(b: char)
      modifies this
      ensures data == old(data) + [b]
    {
      data := data + [b];
    }

    /** Appends raw bytes, as CopyBytes does. */
    method CopyBytes(bs: string)
      modifies this
      ensures data == old(data) + bs
    {
      data := data + bs;
    }

    method WriteBytes(bs: string)
      modifies this
      ensures data == old(data) + Escape(bs)
    {
      var i := 0;
      while i < |bs|
        invariant 0 <= i <= |bs|
        invariant data == old(data) + Escape(bs[..i])
      {
        ghost var before := data;
        if bs[i] == NEWLINE || bs[i] == ESCAPE {
          WriteByte(ESCAPE);
        }
        WriteByte(bs[i]);
        assert data == before + EscapeByte(bs[i]);
        EscapeNext(bs, i);
        Associate(old(data), Escape(bs[..i]), EscapeByte(bs[i]));
        i := i + 1;
      }
      assert bs[..i] == bs;
    }

    method NewLine()
      modifies this
      ensures data == old(data) + [NEWLINE]
    {
      WriteByte(NEWLINE);
    }

    /** A label, a value and a newline: one line of every text format. */
    method WriteLabel(tag: string, value: string)
      modifies this
      ensures data == old(data) + Line(tag + value)
    {
      WriteBytes(tag);
      WriteBytes(value);
      NewLine();
      EscapeConcat(tag, value);
      Associate(old(data), Escape(tag), Escape(value));
      Associate(old(data), Escape(tag) + Escape(value), [NEWLINE]);
    }

    /** Writes line k of `lines`, the lines before it being there already. */
    method PutLine(tag: string, value: string, ghost start: string, ghost lines: seq<string>, ghost k: nat)
      requires k < |lines| && lines[k] == tag + value
      requires data == start + Print(lines[..k])
      modifies this
      ensures data == start + Print(lines[..k + 1])
    {
      WriteLabel(tag, value);
      PrintNext(lines, k);
      Associate(start, Print(lines[..k]), Line(lines[k]));
    }
  }

  /** An index input: a file and a position. */
  class IndexInput {
    const data: string
    var pos: nat

    constructor (data: string)
      ensures this.data == data && pos == 0
    {
      this.data := data;
      pos := 0;
    }

    method Seek(pos: nat)
      modifies this
      ensures this.pos == pos
    {
      this.pos := pos;
    }

    /** ReadLine: unescapes up to the next bare newline. */
    method ReadLine() returns (line: Option<string>)
      modifies this
      ensures LineAt(data, old(pos)).None? ==> line.None?
      ensures LineAt(data, old(pos)).Some? ==>
                line == Some(LineAt(data, old(pos)).value.0) && pos == LineAt(data, old(pos)).value.1
      ensures old(pos) <= pos && (line.Some? ==> old(pos) < pos <= |data|)
    {
      var buf := [];
      AfterNothing(LineAt(data, pos));
      while true
        invariant LineAt(data, old(pos)) == After(buf, LineAt(data, pos)) && old(pos) <= pos
        decreases |data| - pos
      {
        if pos >= |data| {
          return None;
        }
        var b := data[pos];
        if b == ESCAPE {
          if pos + 1 >= |data| {
            return None;
          }
          AfterOne(buf, data[pos + 1], LineAt(data, pos + 2));
          buf := buf + [data[pos + 1]];
          pos := pos + 2;
        } else {
          pos := pos + 1;
          if b == NEWLINE {
            assert buf + [] == buf;
            return Some(buf);
          }
          AfterOne(buf, b, LineAt(data, pos));
          buf := buf + [b];
        }
      }
    }

    /** ReadLabel: a line that starts with `tag`, without it. */
    method ReadLabel(tag: string, ghost start: nat, ghost lines: seq<string>, ghost k: nat)
      returns (v: Option<string>)
      modifies this
      ensures Reading(data, start, lines, old(pos), k) && k < |lines| && HasPrefix(lines[k], tag) ==>
                v == Some(lines[k][|tag|..]) && Reading(data, start, lines, pos, k + 1)
    {
      if Reading(data, start, lines, pos, k) && k < |lines| {
        ReadingLine(data, start, lines, pos, k);
      }
      var line := ReadLine();
      if line.None? || !HasPrefix(line.value, tag) {
        return None;
      }
      return Some(line.value[|tag|..]);
    }

    /** ParseInt: a labelled decimal number. */
    method ReadInt(tag: string, ghost start: nat, ghost lines: seq<string>, ghost k: nat, ghost n: int)
      returns (v: Option<int>)
      modifies this
      ensures Reading(data, start, lines, old(pos), k) && k < |lines| && lines[k] == tag + Itoa(n) && Fits(n, 64) ==>
                v == Some(n) && Reading(data, start, lines, pos, k + 1)
    {
      if lines[..] != [] && k < |lines| && lines[k] == tag + Itoa(n) && Fits(n, 64) {
        OwnLabel(tag, Itoa(n));
        ItoaRoundTrip(n, 64);
      }
      var s := ReadLabel(tag, start, lines, k);
      if s.None? {
        return None;
      }
      return Atoi(s.value);
    }
  }
}
