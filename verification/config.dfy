/** Tuning parameters of the charging controller and the vocabulary shared by every module. */
module Config {

  datatype Option<+T> = None | Some(value: T)

  /** Instants and durations are nanosecond counts; 0 is Go's zero time. */
  type Time = int

  /** The evcc modes that enable charging. */
  datatype PowerMode = PV | Now

  /** The evcc mode the controller asks for. */
  datatype Mode = Off | On(power: PowerMode)

  datatype Profile = SurplusProfile | PowerLatch | SurplusLatch

  datatype Control = Control(
    enableMode: PowerMode,
    autoProfile: Profile,
    startThresholdW: real,
    stopThresholdW: real,
    startDwell: Time,
    stopDwell: Time,
    socCap: int,
    socResumeBelow: int,
    socMax: int,
    decisionInterval: Time,
    staleTimeout: Time,
    republish: Time)
  {
    /** What startup validation guarantees before a controller is built. */
    predicate Valid() {
      && startThresholdW > stopThresholdW
      && 1 <= socCap <= 100
      && socResumeBelow < socCap < socMax <= 100
      && decisionInterval > 0
      && staleTimeout > 0
      && republish > 0
      && startDwell >= 0
      && stopDwell >= 0
    }
  }
}
