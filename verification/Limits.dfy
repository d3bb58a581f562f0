/** The sizes of installd's path buffers, and of package names. */
module Limits {
  const PATH_MAX: nat := 4096
  const PKG_PATH_MAX: nat := 256
  const PKG_NAME_MAX: nat := 128
}
