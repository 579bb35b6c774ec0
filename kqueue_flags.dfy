/**
 * The kqueue constants the emitter uses, with their values from <sys/event.h> and
 * <fcntl.h> on the BSDs and macOS, and the four flag tests on a kevent's `fflags` word.
 */
module KqueueFlags {

  const KQ_FILTER_VNODE: int := -4

  const KQ_EV_ADD: bv32 := 0x0001
  const KQ_EV_ENABLE: bv32 := 0x0004
  const KQ_EV_CLEAR: bv32 := 0x0020

  const KQ_NOTE_DELETE: bv32 := 0x0001
  const KQ_NOTE_WRITE: bv32 := 0x0002
  const KQ_NOTE_EXTEND: bv32 := 0x0004
  const KQ_NOTE_ATTRIB: bv32 := 0x0008
  const KQ_NOTE_LINK: bv32 := 0x0010
  const KQ_NOTE_RENAME: bv32 := 0x0020
  const KQ_NOTE_REVOKE: bv32 := 0x0040

  const O_RDONLY: bv32 := 0x0000
  const O_NONBLOCK: bv32 := 0x0004
  /** Open for event notification only (OS X). */
  const O_EVTONLY: bv32 := 0x8000

  /** Maximum number of events processed per wake-up. */
  const MAX_EVENTS := 4096

  const WATCHDOG_OS_OPEN_FLAGS: bv32 := O_RDONLY | O_NONBLOCK
  const WATCHDOG_KQ_FILTER: int := KQ_FILTER_VNODE
  const WATCHDOG_KQ_EV_FLAGS: bv32 := KQ_EV_ADD | KQ_EV_ENABLE | KQ_EV_CLEAR
  const WATCHDOG_KQ_FFLAGS: bv32 :=
    KQ_NOTE_DELETE | KQ_NOTE_WRITE | KQ_NOTE_EXTEND | KQ_NOTE_ATTRIB |
    KQ_NOTE_LINK | KQ_NOTE_RENAME | KQ_NOTE_REVOKE

  /** `is_deleted`. */
  predicate IsDeleted(fflags: bv32)
  {
    fflags & KQ_NOTE_DELETE != 0
  }

  /** `is_modified`: extended or written. */
  predicate IsModified(fflags: bv32)
  {
    fflags & KQ_NOTE_EXTEND != 0 || fflags & KQ_NOTE_WRITE != 0
  }

  /** `is_attrib_modified`. */
  predicate IsAttribModified(fflags: bv32)
  {
    fflags & KQ_NOTE_ATTRIB != 0
  }

  /** `is_renamed`. */
  predicate IsRenamed(fflags: bv32)
  {
    fflags & KQ_NOTE_RENAME != 0
  }
}
