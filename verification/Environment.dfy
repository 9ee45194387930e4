/** What surrounds a request while it runs. */
module Environment {

  /** Whether other requests run meanwhile, and whether the database may fail or report an applied write as not applied. */
  datatype Setting = Setting(shared: bool, faulty: bool, lossy: bool)

  const UNDISTURBED := Setting(false, false, false)
}
