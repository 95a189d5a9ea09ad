/** The sending program: header, then the file, over a stream that may take less than it is offered. */
module Sender {
  import opened Protocol
  import opened Words

  /** A connected socket.  Each call of send takes what the next of `replies` says. */
  class Socket {
    var stream: seq<Byte>
    var replies: seq<int>

    constructor (replies: seq<int>)
      ensures stream == []
    {
      this.replies := replies;
      stream := [];
    }

    /** At least one byte of the data, or an error. */
    method Send(data: seq<Byte>) returns (n: int)
      requires data != []
      modifies this
      ensures n <= |data|
      ensures stream == old(stream) + if n > 0 then data[..n] else []
    {
      if replies == [] {
        return -1;
      }
      n := if replies[0] > |data| then |data| else replies[0];
      replies := replies[1..];
      if n > 0 {
        stream := stream + data[..n];
      }
    }
  }

  /** escrever_dados: all of the buffer, or an error. */
  method WriteAll(s: Socket, buffer: seq<Byte>) returns (n: int)
    modifies s
    ensures n == |buffer| || n == -1
    ensures n == |buffer| ==> s.stream == old(s.stream) + buffer
    ensures n == -1 ==> exists k: nat :: k < |buffer| && s.stream == old(s.stream) + buffer[..k]
  {
    var sent: nat := 0;
    while sent < |buffer|
      invariant sent <= |buffer| && s.stream == old(s.stream) + buffer[..sent]
    {
      var rest := buffer[sent..];
      var taken := s.Send(rest);
      if taken <= 0 {
        assert s.stream == old(s.stream) + buffer[..sent];
        return -1;
      }
      assert buffer[..sent] + rest[..taken] == buffer[..sent + taken];
      sent := sent + taken;
    }
    return sent;
  }

  /** The transfer as main does it; names over twelve characters are turned away. */
  method SendFile(s: Socket, name: seq<Byte>, contents: seq<Byte>) returns (ok: bool)
    requires 0 !in name && |contents| < 0x8000_0000
    modifies s
    ensures |name| > 12 ==> !ok && s.stream == old(s.stream)
    ensures ok ==> IsName(name) && s.stream == old(s.stream) + (Header(|contents|, name) + contents)
    ensures !ok && |name| <= 12 ==>
              exists k: nat :: k < HEADER + |contents| && s.stream == old(s.stream) + (Header(|contents|, name) + contents)[..k]
  {
    hide Header;
    if |name| > 12 {
      return false;
    }
    var header := FillHeader(name, |contents|);
    var all := header + contents;
    ghost var start := s.stream;
    var n := WriteAll(s, header);
    if n < 0 {
      ghost var k: nat :| k < |header| && s.stream == start + header[..k];
      assert all[..k] == header[..k];
      return false;
    }
    n := WriteAll(s, contents);
    if n < 0 {
      ghost var k: nat :| k < |contents| && s.stream == start + header + contents[..k];
      assert all[..HEADER + k] == header + contents[..k];
      assert s.stream == start + all[..HEADER + k];
      return false;
    }
    return true;
  }

  /** The header struct: size, then the name over a field of spaces. */
  method FillHeader(name: seq<Byte>, size: nat) returns (h: seq<Byte>)
    requires IsName(name) && size < 0x8000_0000
    ensures h == Header(size, name)
  {
    var cabecalho := new Byte[HEADER](_ => 0);
    var bytes := Le32(size);
    for i := 0 to 4
      invariant cabecalho[..i] == bytes[..i]
    {
      cabecalho[i] := bytes[i];
    }
    for i := 0 to 12
      invariant cabecalho[..4] == bytes
      invariant forall j :: 4 <= j < 4 + i ==> cabecalho[j] == SPACE
    {
      cabecalho[4 + i] := SPACE;
    }
    for i := 0 to |name|
      invariant cabecalho[..4] == bytes
      invariant forall j :: 0 <= j < i ==> cabecalho[4 + j] == name[j]
      invariant forall j :: 4 + i <= j < HEADER ==> cabecalho[j] == SPACE
    {
      cabecalho[4 + i] := name[i];
    }
    h := cabecalho[..];
    SpacesAre(12 - |name|);
    assert h == Header(size, name);
  }

  lemma {:induction false} SpacesAre(n: nat)
    ensures forall j :: 0 <= j < n ==> Spaces(n)[j] == SPACE
  {
    if n > 0 {
      SpacesAre(n - 1);
    }
  }
}
