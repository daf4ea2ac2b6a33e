/** The growing byte buffer below the serializer. */
module ByteBuffer {
  import opened Bytes

  class ByteArray {
    var m_data: seq<Byte>

    constructor ()
      ensures m_data == []
    {
      m_data := [];
    }

    constructor FromBuffer(buffer: seq<Byte>, size: nat)
      requires size <= |buffer|
      ensures m_data == buffer[..size]
    {
      m_data := buffer[..size];
    }

    constructor Copy(ba: ByteArray)
      ensures m_data == ba.m_data
    {
      m_data := ba.m_data;
    }

    /** Assignment; assigning an array to itself is allowed. */
    method Assign(ba: ByteArray)
      modifies this
      ensures m_data == old(ba.m_data)
    {
      if this != ba {
        m_data := ba.m_data;
      }
    }

    function Size(): nat
      reads this
    {
      |m_data|
    }

    method AppendByte(b: Byte)
      modifies this
      ensures m_data == old(m_data) + [b]
    {
      m_data := m_data + [b];
    }

    method AppendArray(ba: ByteArray)
      requires ba != this
      modifies this
      ensures m_data == old(m_data) + ba.m_data
    {
      m_data := m_data + ba.m_data;
    }

    method AppendBuffer(buffer: seq<Byte>, size: nat)
      requires size <= |buffer|
      modifies this
      ensures m_data == old(m_data) + buffer[..size]
    {
      var k := 0;
      while k < size
        invariant k <= size
        invariant m_data == old(m_data) + buffer[..k]
      {
        m_data := m_data + [buffer[k]];
        k := k + 1;
      }
    }

    method Slice(begin: nat, size: nat) returns (r: ByteArray)
      requires begin + size <= Size()
      ensures fresh(r) && r.m_data == m_data[begin..begin + size]
    {
      var part := m_data[begin..begin + size];
      r := new ByteArray.FromBuffer(part, size);
    }

    method Clear()
      modifies this
      ensures m_data == []
    {
      m_data := [];
    }
  }
}
