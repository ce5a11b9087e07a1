/** The operations a caller can submit, and the flow that carries one of them together with
    the caller's 64-bit tag. */
module Flows {
  import opened Words

  datatype IoSlice = IoSlice(buf: u64, len: usize)

  datatype Operation =
    | Read(fd: int, buf: u64, len: usize, offset: u64)
    | Write(fd: int, buf: u64, len: usize, offset: u64)
    | Readv(fd: int, bufs: seq<IoSlice>, offset: u64)
    | Writev(fd: int, bufs: seq<IoSlice>, offset: u64)
    | Accept(fd: int, addr: u64, addrlenPtr: u64)
    | Connect(fd: int, addr: u64, addrlen: u32)
    | Recv(fd: int, buf: u64, len: usize)
    | Send(fd: int, buf: u64, len: usize)
    | Close(fd: int)

  datatype Flow = Flow(op: Operation, userData: u64)

  function UserDatas(flows: seq<Flow>): seq<u64> {
    seq(|flows|, i requires 0 <= i < |flows| => flows[i].userData)
  }
}
