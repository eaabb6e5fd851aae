/**
 * The part of the Borsh binary format that the counter account uses: a `u32`
 * is stored as exactly four bytes, least significant first. Decoding reads from
 * a byte slice; encoding writes into a fixed-size mutable byte slice, the way
 * `std::io::Write` is implemented for `&mut [u8]`.
 */
module Borsh {
  import opened Primitives

  /** The I/O errors that reading or writing a byte slice can raise here. */
  datatype IoError =
    | UnexpectedLength   // fewer bytes than the value needs ("Unexpected length of input")
    | NotAllBytesRead    // bytes left over after the value ("Not all bytes read")
    | WriteZero          // the destination slice is full ("failed to write whole buffer")

  /** Reference meaning of a little-endian byte string: the first byte is the least significant. */
  function LeValue(b: seq<u8>): nat
  {
    if |b| == 0 then 0 else b[0] as nat + 0x100 * LeValue(b[1..])
  }

  /** The four-byte case of LeValue written out. */
  lemma LeValue4(b: seq<u8>)
    requires |b| == 4
    ensures LeValue(b) == b[0] as int + 0x100 * b[1] as int + 0x1_0000 * b[2] as int + 0x100_0000 * b[3] as int
  {
    assert LeValue(b[3..]) == b[3] as int by {
      assert b[3..][1..] == [];
    }
    assert LeValue(b[2..]) == b[2] as int + 0x100 * LeValue(b[3..]) by {
      assert b[2..][1..] == b[3..];
    }
    assert LeValue(b[1..]) == b[1] as int + 0x100 * LeValue(b[2..]) by {
      assert b[1..][1..] == b[2..];
    }
  }

  /** Four bytes always hold a value that fits in a `u32`. */
  lemma LeValue4Bound(b: seq<u8>)
    requires |b| == 4
    ensures LeValue(b) < 0x1_0000_0000
  {
    LeValue4(b);
  }

  /** Two byte strings of the same length with the same little-endian value are equal. */
  lemma {:induction false} LeValueInjective(a: seq<u8>, b: seq<u8>)
    requires |a| == |b| && LeValue(a) == LeValue(b)
    ensures a == b
  {
    if |a| > 0 {
      assert a[0] == b[0] && LeValue(a[1..]) == LeValue(b[1..]);
      LeValueInjective(a[1..], b[1..]);
      assert a == [a[0]] + a[1..] && b == [b[0]] + b[1..];
    }
  }

  /** `u32::to_le_bytes`: the four bytes whose little-endian value is `x`. */
  function ToLeBytes(x: u32): (b: seq<u8>)
    ensures |b| == 4 && LeValue(b) == x as nat
  {
    var q1 := x as int / 0x100;
    var q2 := q1 / 0x100;
    var q3 := q2 / 0x100;
    var b := [(x as int % 0x100) as u8, (q1 % 0x100) as u8, (q2 % 0x100) as u8, q3 as u8];
    LeValue4(b);
    b
  }

  /** `u32::from_le_bytes`: the value of four little-endian bytes; always representable. */
  function FromLeBytes(b: seq<u8>): (x: u32)
    requires |b| == 4
    ensures x as nat == LeValue(b)
  {
    LeValue4(b);
    (b[0] as int + 0x100 * b[1] as int + 0x1_0000 * b[2] as int + 0x100_0000 * b[3] as int) as u32
  }

  /** Decoding an encoding gives the value back. */
  lemma FromToLeBytes(x: u32)
    ensures FromLeBytes(ToLeBytes(x)) == x
  {
  }

  /** Encoding a decoded four-byte string gives the same bytes back. */
  lemma ToFromLeBytes(b: seq<u8>)
    requires |b| == 4
    ensures ToLeBytes(FromLeBytes(b)) == b
  {
    LeValueInjective(ToLeBytes(FromLeBytes(b)), b);
  }

  /**
   * `u32::deserialize` on a byte-slice reader: consumes the first four bytes,
   * or fails without consuming anything when fewer than four remain.
   */
  function DeserializeU32(input: seq<u8>): (r: Result<(u32, seq<u8>), IoError>)
    ensures r.Ok? <==> |input| >= 4
    ensures r.Err? ==> r.error == UnexpectedLength
    ensures r.Ok? ==> input == ToLeBytes(r.value.0) + r.value.1
  {
    if |input| < 4 then Err(UnexpectedLength)
    else
      var x := FromLeBytes(input[..4]);
      ToFromLeBytes(input[..4]);
      assert input == input[..4] + input[4..];
      Ok((x, input[4..]))
  }

  /**
   * `write_all` on a `&mut [u8]` destination: copies as many bytes as fit over
   * the front of the slice, and fails with WriteZero when not all of them fit.
   * The slice is never grown or shrunk.
   */
  function WriteAll(dst: seq<u8>, bytes: seq<u8>): (r: (Result<(), IoError>, seq<u8>))
    ensures |r.1| == |dst|
    ensures r.0.Ok? <==> |bytes| <= |dst|
    ensures r.0.Err? ==> r.0.error == WriteZero
    ensures forall i :: 0 <= i < |dst| ==> r.1[i] == if i < |bytes| then bytes[i] else dst[i]
  {
    if |bytes| <= |dst| then (Ok(()), bytes + dst[|bytes|..])
    else (Err(WriteZero), bytes[..|dst|])
  }

  /** WriteAll carried out in place on the destination array. */
  method WriteAllToSlice(dst: array<u8>, bytes: seq<u8>) returns (r: Result<(), IoError>)
    modifies dst
    ensures (r, dst[..]) == WriteAll(old(dst[..]), bytes)
  {
    var n := if |bytes| <= dst.Length then |bytes| else dst.Length;
    forall i | 0 <= i < n {
      dst[i] := bytes[i];
    }
    r := if n < |bytes| then Err(WriteZero) else Ok(());
    assert dst[..] == WriteAll(old(dst[..]), bytes).1;
  }
}
