/** Error codes of the file store. */
module Errors {
  const ERR_NO_FILE_BLOCK: int := -9811
  const ERR_READ: int := -1
  const QERR_EOF: int := -10
  const QERR_DF: int := -11
}
