/** The translations a Bible can belong to. */
module Versions {

  /** A translation version, identified by its code (for example "KJV"). */
  datatype Version = Version(code: string)
}
