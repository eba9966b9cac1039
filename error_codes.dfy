/** The shared error vocabulary of include/utility/common/comm_err.h: a flat enumeration
    counting up from -65536, plus `normal_error` and `ok`. */
module ErrorCodes {

  const QUEUE_FULL: int := -65535
  const QUEUE_EMPTY: int := -65534
  const PACKET_LESS: int := -65533
  const PACKET_ERROR: int := -65532
  const SESSION_FULL: int := -65531
  const SESSION_STOPPED: int := -65530
  const SESSION_NOT_EXIST: int := -65529
  const NORMAL_ERROR: int := -1
  const OK: int := 0
}
