// The C library's view of a file: its bytes and a read position.
module Files {
  import opened Bits

  class File {
    var data: seq<byte>
    var pos: nat

    constructor (contents: seq<byte>)
      ensures data == contents && pos == 0
    {
      data, pos := contents, 0;
    }

    // fwrite on a file opened for writing.
    method Write(bytes: seq<byte>)
      modifies this`data
      ensures data == old(data) + bytes
    {
      data := data + bytes;
    }

    // fread: as many of the next n bytes as the file still has.
    method Read(n: nat) returns (bytes: seq<byte>)
      modifies this`pos
      ensures pos == old(pos) + |bytes|
      ensures |bytes| == if |data| <= old(pos) then 0
                         else if old(pos) + n <= |data| then n else |data| - old(pos)
      ensures forall i :: 0 <= i < |bytes| ==> bytes[i] == data[old(pos) + i]
    {
      var end := if |data| <= pos then pos else if pos + n <= |data| then pos + n else |data|;
      bytes := if pos < end then data[pos..end] else [];
      pos := end;
    }

    // fseek from the start of the file, possibly beyond its end.
    method Seek(offset: nat)
      modifies this`pos
      ensures pos == offset
    {
      pos := offset;
    }
  }
}
