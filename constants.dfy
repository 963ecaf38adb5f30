/** The calibration constants of the drive (the C# `Hardware` struct). */
module Hardware {
  import opened Words

  const Pitch: real := 32.0                    // circumference of the gear wheel [mm]
  const TicksPerRev: real := 4096.0            // drive ticks per revolution
  const VelocityResolution: real := 16.0       // velocity register resolution divisor
  const TimePerSecond: real := 2000.0          // device time register counts per second
  const MotorTorquePerTorque: real := 1000.0   // [mNm] per [Nm]
  const PressureGain: real := 1.0
  const PressureBias: real := 0.0
  const LinearPosGain: real := 100.0 / 65420.0 // raw linear sensor word to [mm]
  const LinearPosBias: real := 0.0
  const MaxTorque: Int16 := 200                // torque limit written before every run [mNm]
  const MotorOffset: Int16 := 15000
  const HomePosition: real := 10.0             // [mm]
  const HomePosTolerance: real := 0.01         // [mm]
  const MinPosition: real := 1.3               // travel range of the linear sensor [mm]
  const MaxPosition: real := 91.0
}

/** Register addresses of the drive (the C# `Register` struct). */
module Register {
  import opened Words

  const TargetInput: UInt16 := 450
  const TargetPresent: UInt16 := 463
  const Position: UInt16 := 200
  const Speed: UInt16 := 202
  const Torque: UInt16 := 203
  const Current: UInt16 := 223
  const Time: UInt16 := 420
  const Pressure: UInt16 := 170
  const LinearPosition: UInt16 := 172
  const OutputControl3: UInt16 := 152
  const Output3: UInt16 := 162
  const Acceleration: UInt16 := 353
  const Deacceleration: UInt16 := 354
  const Mode: UInt16 := 400
  const MotorTorqueMax: UInt16 := 204
  const Status: UInt16 := 410
  const LogRegister1: UInt16 := 905
  const LogRegister2: UInt16 := 906
  const LogRegister3: UInt16 := 907
  const LogRegister4: UInt16 := 908
  const LogRegisterValue1: UInt16 := 1000
  const LogRegisterValue2: UInt16 := 2000
  const LogRegisterValue3: UInt16 := 3000
  const LogRegisterValue4: UInt16 := 4000
  const LogState: UInt16 := 900
  const LogPeriod: UInt16 := 902
  const SeqTarget: UInt16 := 510
  const SeqTime: UInt16 := 570
  const SeqIndex: UInt16 := 501

  // The event (interlock) tables, twenty entries each.
  const EventControl: UInt16 := 680
  const EventTrgReg: UInt16 := 700
  const EventTrgData: UInt16 := 720
  const EventSrcReg: UInt16 := 740
  const EventSrcData: UInt16 := 760
  const EventDstReg: UInt16 := 780
}

/** Operating modes written to the `Mode` register (the C# `Mode` struct). */
module Mode {
  import opened Words

  const PositionRamp: Int16 := 21
  const SpeedRamp: Int16 := 33
  const Shutdown: Int16 := 4
  const MotorOff: Int16 := 0
  const Beep: Int16 := 60
}
