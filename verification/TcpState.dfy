/** The connection states of include/user_tcp.h, in the order of their numeric values. */
module TcpState {
  datatype State =
    | CLOSED | LISTEN | SYN_SENT | SYN_RCVD | ESTABLISHED | CLOSE_WAIT
    | FIN_WAIT_1 | CLOSING | LAST_ACK | FIN_WAIT_2 | TIME_WAIT
  {
    function Code(): nat {
      match this
      case CLOSED => 0
      case LISTEN => 1
      case SYN_SENT => 2
      case SYN_RCVD => 3
      case ESTABLISHED => 4
      case CLOSE_WAIT => 5
      case FIN_WAIT_1 => 6
      case CLOSING => 7
      case LAST_ACK => 8
      case FIN_WAIT_2 => 9
      case TIME_WAIT => 10
    }
  }
}
