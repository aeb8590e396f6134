/** Linux error numbers used by the sine player; alsa-lib reports them negated. */
module Errno {
  const EAGAIN: int := 11
  const EINVAL: int := 22
  const EPIPE: int := 32
  const ESTRPIPE: int := 86
}
