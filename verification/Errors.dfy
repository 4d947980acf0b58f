/** The closed error catalogue of `include/rzi/err.h`, already negated as the C functions return it. */
module Errors {
  const OK := 0
  const ERR_INVALID := -1000
  const ERR_NOT_READY := -1002
  const ERR_ALREADY := -1003
  const ERR_BUSY := -1004
  const ERR_NOT_SUPPORTED := -1005
  const ERR_NO_RESOURCE := -1006
  const ERR_NOT_FOUND := -1007
  const ERR_NO_DATA := -1008
  const ERR_TOO_LARGE := -1009
  const ERR_OVERFLOW := -1011
  const ERR_BAD_MESSAGE := -1013
  const ERR_NOT_JOINED := -1015
  const ERR_INVALID_STATE := -1017
}
