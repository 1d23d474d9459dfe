/** Constants and the two index types every part of the kernel model shares. */
module Config {

  /** kernel/include/config.h: OS_MAX_TASKS, IDLE_PRIO, OS_NUM_MUTEX. */
  const OS_MAX_TASKS := 64
  const IDLE_PRIO := 63
  const OS_NUM_MUTEX := 32

  /** kernel/include/device.h: NUM_DEVICES. */
  const NUM_DEVICES := 60

  /** kernel/include/arm/timer.h: counter cycles in one tick. */
  const OSTMR_COUNT := 32500

  /** kernel/include/bits/errno.h; the kernel returns these negated. */
  const EPERM := 1
  const ENOMEM := 12
  const EFAULT := 14
  const EINVAL := 22
  const EDEADLOCK := 58
  const EHOLDSLOCK := 59
  const ESCHED := 100

  /** A pointer into `system_tcb`, as an index. Entry 0 is never handed out
      (tasks use 1..62, idle uses 63), so 0 plays the null pointer. */
  type TaskId = t: nat | t < 64

  const NULL: TaskId := 0
  const IDLE: TaskId := 63
}
