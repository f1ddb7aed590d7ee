/** The operating system below the library: one connection, read and written in partial
    transfers of any size. A fault is part of the connection's script: reading reports
    readErrno behind the last incoming byte, writing reports writeErrno once room is used up. */
module FcgiConnection {
  import opened FcgiWire

  class Connection {
    var incoming: Bytes
    const readErrno: int
    var outgoing: Bytes
    var room: nat
    const writeErrno: int
    var stalls: nat    // how often a write may still accept nothing without failing

    constructor (incoming: Bytes, readErrno: int, room: nat, writeErrno: int)
      ensures this.incoming == incoming && this.readErrno == readErrno
      ensures outgoing == [] && this.room == room && this.writeErrno == writeErrno
    {
      var anyNumber: nat := *;
      stalls := anyNumber;
      this.incoming, this.readErrno := incoming, readErrno;
      this.outgoing, this.room, this.writeErrno := [], room, writeErrno;
    }

    /** OS_Read: any number of the next bytes, 0 at end of file, negative on an error. */
    method Read(buf: array<Byte>) returns (count: int)
      requires buf.Length > 0
      modifies this`incoming, buf
      ensures old(incoming) == [] ==>
                && count == (if readErrno == 0 then 0 else -1)
                && incoming == [] && buf[..] == old(buf[..])
      ensures old(incoming) != [] ==>
                && 1 <= count <= buf.Length && count <= |old(incoming)|
                && buf[..count] == old(incoming)[..count] && incoming == old(incoming)[count..]
    {
      if incoming == [] {
        return if readErrno == 0 then 0 else -1;
      }
      var n :| 1 <= n <= buf.Length && n <= |incoming|;
      for i := 0 to n
        invariant incoming == old(incoming)
        invariant forall k :: 0 <= k < i ==> buf[k] == incoming[k]
      {
        buf[i] := incoming[i];
      }
      incoming := incoming[n..];
      return n;
    }

    /** OS_Write: accepts any number of the bytes, or fails; it does not accept nothing forever. */
    method Write(bs: Bytes) returns (wrote: int)
      requires bs != []
      modifies this`outgoing, this`room, this`stalls
      ensures old(room) == 0 ==> wrote < 0 && outgoing == old(outgoing) && room == 0 && stalls == old(stalls)
      ensures old(room) > 0 ==>
                && 0 <= wrote <= |bs| && wrote <= old(room)
                && outgoing == old(outgoing) + bs[..wrote] && room == old(room) - wrote
                && stalls == if wrote == 0 then old(stalls) - 1 else old(stalls)
    {
      if room == 0 {
        return -1;
      }
      var n :| 0 <= n <= |bs| && n <= room && (n == 0 ==> stalls > 0);
      outgoing := outgoing + bs[..n];
      room := room - n;
      stalls := if n == 0 then stalls - 1 else stalls;
      return n;
    }

    /** write_it_all: repeats OS_Write until everything is out or a write fails. */
    method WriteItAll(bs: Bytes) returns (ok: bool)
      modifies this`outgoing, this`room, this`stalls
      ensures ok <==> |bs| <= old(room)
      ensures ok ==> outgoing == old(outgoing) + bs && room == old(room) - |bs|
      ensures !ok ==> outgoing == old(outgoing) + bs[..old(room)] && room == 0
    {
      var sent := 0;
      while sent < |bs|
        invariant sent <= |bs| && sent <= old(room)
        invariant outgoing == old(outgoing) + bs[..sent]
        invariant room == old(room) - sent
        decreases |bs| - sent, stalls
      {
        var wrote := Write(bs[sent..]);
        if wrote < 0 {
          return false;
        }
        assert bs[..sent] + bs[sent..][..wrote] == bs[..sent + wrote];
        sent := sent + wrote;
      }
      assert bs[..sent] == bs;
      return true;
    }
  }

  /** FCGX_Request: what the streams of one request share. */
  class Request {
    var conn: Connection
    var requestId: int
    var begun: bool
    var role: int
    var keep: bool
    var nWriters: int
    var appStatus: int

    constructor (conn: Connection, requestId: int)
      ensures this.conn == conn && this.requestId == requestId
      ensures !begun && role == 0 && !keep && nWriters == 0 && appStatus == 0
    {
      this.conn, this.requestId := conn, requestId;
      begun, role, keep, nWriters, appStatus := false, 0, false, 0, 0;
    }
  }
}
