/**
 What every part of the kernel knows about environments (inc/env.h).
 */
module Environments {

  const NENV: nat := 1024

  datatype Status = Free | Dying | Runnable | Running | NotRunnable
}
