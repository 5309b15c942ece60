/** Records that the operating-system queries return (gopsutil's connection
    records). The queries themselves are not modelled: their answers are inputs. */
module Samples {

  /** An endpoint of a connection: IP text and port. */
  datatype Addr = Addr(ip: string, port: nat)

  /** One entry of `net.Connections("all")`. */
  datatype Connection = Connection(laddr: Addr, raddr: Addr, status: string, pid: int)
}
