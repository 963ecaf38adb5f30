/** The torque interlock: one device-resident event rule that forces the drive off when the
    torque bit of the status register is set (`CreateEvent` and its two call sites). */
module Interlock {
  import opened Words
  import opened Transport
  import opened Outcomes
  import Register
  import Mode
  import Hardware

  /** The six writes of `CreateEvent(eventNr, ...)`, one into each event table. */
  function EventWrites(eventNr: UInt16, trgData: Int16, trgReg: Int16, eventLogic: UInt16,
                       dstRegister: Int16, srcData: UInt16, srcRegister: Int16): seq<RegWrite>
  {
    [ RegWrite(Wrap16(Register.EventTrgData + eventNr), trgData, I16),
      RegWrite(Wrap16(Register.EventTrgReg + eventNr), trgReg, I16),
      RegWrite(Wrap16(Register.EventControl + eventNr), eventLogic, U16),
      RegWrite(Wrap16(Register.EventDstReg + eventNr), dstRegister, I16),
      RegWrite(Wrap16(Register.EventSrcData + eventNr), srcData, U16),
      RegWrite(Wrap16(Register.EventSrcReg + eventNr), srcRegister, I16) ]
  }

  /** Bit 5 of the status register signals the torque limit. */
  const TorqueBitmask: Int16 := 32
  /** Behaviour 0xF, trigger 7: bitwise "and" of the source register and the mask. */
  const AndLogic: UInt16 := 0xF007

  /** Arming: event 0 writes MotorOff into the Mode register when Status & 32 is set,
      then the torque limit is clamped. */
  function ArmWrites(): seq<RegWrite>
  {
    EventWrites(0, TorqueBitmask, Register.Status as Int16, AndLogic, Register.Mode as Int16, 0, 0)
      + [RegWrite(Register.MotorTorqueMax, Hardware.MaxTorque, I16)]
  }

  /** For an event number within the documented 0..19, the six writes land in the six
      event tables at offset `eventNr`, in this order, with the given values. */
  lemma EventLayout(eventNr: UInt16, trgData: Int16, trgReg: Int16, eventLogic: UInt16,
                    dstRegister: Int16, srcData: UInt16, srcRegister: Int16)
    requires eventNr < 20
    ensures EventWrites(eventNr, trgData, trgReg, eventLogic, dstRegister, srcData, srcRegister) ==
      [ RegWrite(720 + eventNr, trgData, I16), RegWrite(700 + eventNr, trgReg, I16),
        RegWrite(680 + eventNr, eventLogic, U16), RegWrite(780 + eventNr, dstRegister, I16),
        RegWrite(760 + eventNr, srcData, U16), RegWrite(740 + eventNr, srcRegister, I16) ]
  {
  }

  /** Arming writes exactly these seven registers, and none of them is the Mode register,
      the target register or the logging state: arming never starts the motor. */
  lemma ArmingWrites()
    ensures ArmWrites() ==
      [ RegWrite(720, 32, I16), RegWrite(700, 410, I16), RegWrite(680, 0xF007, U16),
        RegWrite(780, 400, I16), RegWrite(760, 0, U16), RegWrite(740, 0, I16),
        RegWrite(204, 200, I16) ]
    ensures LastValueAt(ArmWrites(), Register.Mode).None?
    ensures LastValueAt(ArmWrites(), Register.TargetInput).None?
    ensures LastValueAt(ArmWrites(), Register.LogState).None?
  {
    EventLayout(0, TorqueBitmask, Register.Status as Int16, AndLogic, Register.Mode as Int16, 0, 0);
  }
}
