/**
 * Domain names as sequences of length-prefixed labels ending in a zero byte
 * (section 3.1 of RFC 1035). Neither side handles compression pointers.
 */
module Names {
  import opened Binary
  import opened Wrappers

  /** A label holds the bytes of a Go string. */
  type Label = seq<byte>

  /**
   * Every byte is ASCII. Go's Pack loops over the runes of each label, so it writes the
   * label's own bytes only when each byte is a rune by itself.
   */
  predicate Ascii(name: seq<Label>)
  {
    forall i, j :: 0 <= i < |name| && 0 <= j < |name[i]| ==> name[i][j] < 0x80
  }

  /**
   * Labels that survive a round trip: non-empty (an empty one would read as the terminator) and
   * shorter than 256 bytes (a longer one's length byte wraps around).
   */
  predicate ValidName(name: seq<Label>)
  {
    forall i :: 0 <= i < |name| ==> 0 < |name[i]| < 256
  }

  /**
   * The labels, each preceded by its length byte, without the terminator. The length byte is
   * Go's byte(len(s)): the length modulo 256.
   */
  function LabelsWire(name: seq<Label>): seq<byte>
  {
    if name == [] then [] else [LengthByte(name[0])] + name[0] + LabelsWire(name[1..])
  }

  /** byte(len(s)): Go's conversion keeps the low eight bits of the length. */
  function LengthByte(l: Label): (b: byte)
    ensures |l| < 256 ==> b == |l|
  {
    |l| % 256
  }

  /** The wire image of a name: its labels followed by the zero byte. */
  function NameWire(name: seq<Label>): seq<byte>
  {
    LabelsWire(name) + [0]
  }

  /** Reference count of the bytes a name occupies: 1 + |l| per label, plus the terminator. */
  function NameLength(name: seq<Label>): nat
  {
    if name == [] then 1 else 1 + |name[0]| + NameLength(name[1..])
  }

  lemma {:induction false} NameWireLength(name: seq<Label>)
    ensures |NameWire(name)| == NameLength(name)
  {
    if name != [] {
      NameWireLength(name[1..]);
    }
  }

  lemma {:induction false} LabelsWireAppend(name: seq<Label>, l: Label)
    ensures LabelsWire(name + [l]) == LabelsWire(name) + [LengthByte(l)] + l
  {
    if name != [] {
      assert (name + [l])[1..] == name[1..] + [l];
      LabelsWireAppend(name[1..], l);
    } else {
      assert LabelsWire([l]) == [LengthByte(l)] + l + LabelsWire([]);
    }
  }

  /** A non-empty label in front of a name: still valid, and written as its length, its bytes, then the name. */
  lemma {:induction false} NameWireCons(l: Label, rest: seq<Label>)
    requires 0 < |l| < 256 && ValidName(rest)
    ensures ValidName([l] + rest)
    ensures NameWire([l] + rest) == [|l| as byte] + l + NameWire(rest)
  {
    assert ([l] + rest)[1..] == rest;
  }

  /**
   * The decoder of UnpackLabels as a recursive function: it consumes at least the terminator and
   * never more than its input. None where the Go loop would index past the end.
   */
  function ParseLabels(data: seq<byte>): (r: Option<(seq<Label>, nat)>)
    ensures r.Some? ==> 0 < r.value.1 <= |data|
    decreases |data|
  {
    if |data| == 0 then None
    else if data[0] == 0 then Some(([], 1))
    else
      var size := data[0] as int;
      if |data| < 1 + size then None
      else
        match ParseLabels(data[1 + size..])
        case None => None
        case Some((rest, n)) => Some(([data[1..1 + size]] + rest, 1 + size + n))
  }

  /** What ParseLabels returns is a valid name, and the bytes it consumes are exactly that name's wire image. */
  lemma {:induction false} ParseLabelsConsumesWire(data: seq<byte>)
    requires ParseLabels(data).Some?
    ensures ValidName(ParseLabels(data).value.0)
    ensures data[..ParseLabels(data).value.1] == NameWire(ParseLabels(data).value.0)
    decreases |data|
  {
    if data[0] != 0 {
      var size := data[0] as int;
      var tail := data[1 + size..];
      ParseLabelsConsumesWire(tail);
      var rest := ParseLabels(tail).value.0;
      var n := ParseLabels(tail).value.1;
      var l := data[1..1 + size];
      assert ParseLabels(data) == Some(([l] + rest, 1 + size + n));
      NameWireCons(l, rest);
      assert data[..1 + size] == [|l| as byte] + l;
      TakeConcat(data, 1 + size, n, [|l| as byte] + l, NameWire(rest));
    }
  }

  /** Decoding the wire image of a valid name, whatever follows it, gives the name back and consumes NameLength bytes. */
  lemma {:induction false} ParseLabelsRoundTrip(name: seq<Label>, rest: seq<byte>)
    requires ValidName(name)
    ensures ParseLabels(NameWire(name) + rest) == Some((name, NameLength(name)))
  {
    NameWireLength(name);
    if name == [] {
      assert (NameWire(name) + rest)[0] == 0;
    } else {
      var l := name[0];
      var data := NameWire(name) + rest;
      assert data == [|l| as byte] + l + (NameWire(name[1..]) + rest);
      assert data[1 + |l|..] == NameWire(name[1..]) + rest;
      assert data[1..1 + |l|] == l;
      ParseLabelsRoundTrip(name[1..], rest);
      assert [l] + name[1..] == name;
    }
  }

  /**
   * UnpackLabels: reads length bytes from the start of its slice until a zero byte,
   * appending one label per length. Returns the labels and the bytes consumed.
   */
  method UnpackLabels(data: seq<byte>) returns (r: Option<(seq<Label>, nat)>)
    ensures r == ParseLabels(data)
  {
    var res: seq<Label> := [];
    var i := 0;
    assert data[i..] == data;
    while i < |data| && data[i] != 0
      invariant 0 <= i <= |data|
      invariant ParseLabels(data[i..]).None? ==> ParseLabels(data).None?
      invariant ParseLabels(data[i..]).Some? ==>
        ParseLabels(data).Some? &&
        ParseLabels(data).value.0 == res + ParseLabels(data[i..]).value.0 &&
        ParseLabels(data).value.1 == i + ParseLabels(data[i..]).value.1
      decreases |data| - i
    {
      var size := data[i] as int;
      if i + 1 + size > |data| {
        return None;
      }
      var l := data[i + 1..i + 1 + size];
      assert data[i..][1 + size..] == data[i + 1 + size..];
      assert data[i..][1..1 + size] == l;
      res := res + [l];
      i := i + 1 + size;
    }
    if i == |data| {
      return None;
    }
    assert ParseLabels(data[i..]) == Some(([], 1));
    assert res + [] == res;
    r := Some((res, i + 1));
  }

  /** The label loop of Question.Pack and RR.Pack: writes the name into a fresh buffer. */
  method PackName(name: seq<Label>) returns (buffer: seq<byte>)
    requires Ascii(name)
    ensures buffer == NameWire(name)
  {
    buffer := [];
    for k := 0 to |name|
      invariant buffer == LabelsWire(name[..k])
    {
      var s := name[k];
      buffer := buffer + [LengthByte(s)];
      for j := 0 to |s|
        invariant buffer == LabelsWire(name[..k]) + [LengthByte(s)] + s[..j]
      {
        buffer := buffer + [s[j]];
      }
      LabelsWireAppend(name[..k], s);
      assert name[..k + 1] == name[..k] + [s];
    }
    assert name[..|name|] == name;
    buffer := buffer + [0];
  }
}
