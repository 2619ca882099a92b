/** The values an error wait group passes around: the reports ("notifications")
    admins send to the waiting supervisor, and the interrupts sent back to admins.
    The getters of the source (AdminId(), Code(), Info(), Err() on a notification,
    Code() and Info() on an interrupt) are the datatype fields below. */
module Reports {

  datatype Option<+T> = None | Some(value: T)

  /** Identity of an admin, i.e. of a worker registered in a group. */
  datatype AdminId = AdminId(id: int)

  /** Kinds of report: an open set of integers with two reserved values. */
  type NotifCode = int
  const NotifDone: NotifCode := 0
  const NotifError: NotifCode := 1

  /** Kinds of interrupt: an open set of integers with two reserved values. */
  type InterruptCode = int
  const InterruptStop: InterruptCode := 0
  const InterruptKill: InterruptCode := 1

  /** The untyped payload of a report or an interrupt, and an error value;
      `None` stands for nil. Only equality and pass-through matter. */
  type Info = int
  type ErrorValue = string

  datatype Notif = Notif(adminId: AdminId, code: NotifCode, info: Option<Info>, err: Option<ErrorValue>)

  /** The zero report `Notif{}`: admin 0, code Done, no payload, no error. */
  const ZeroNotif: Notif := Notif(AdminId(0), NotifDone, None, None)

  datatype Interrupt = Interrupt(code: InterruptCode, info: Option<Info>)

  /** The zero interrupt `Interrupt{}`, returned by a poll of an empty mailbox. */
  const ZeroInterrupt: Interrupt := Interrupt(InterruptStop, None)
}
