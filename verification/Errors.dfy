/** Result codes of the kernel's memory code. */
module Errors {
  /**
   Three results after which the model does not go on: KPANIC stands for a call to kpanic, KCORRUPT
   for flags written over an interior node of the buddy tree whose children stay in place, KFREED for
   the use of a node of that tree that has been merged away.
   */
  datatype Err = ESUCCESS | EINVAL | ENOPAGE | ENOMEM | KPANIC | KCORRUPT | KFREED
}
