/** Result types shared by every module. */
module Wrappers {
  datatype Option<+T> = None | Some(value: T)

  /** How a cloud, agent or repository call ends. NotFound is the cloud error that
      names a missing VM, disk or stemcell; Failed is every other error. */
  datatype Outcome = Ok | NotFound | Failed
}
