/** What a scan reports: which process listens on which port, at which addresses. */
module Listeners {
  datatype Listener = Listener(pid: int, port: int, addrs: seq<string>)
}
