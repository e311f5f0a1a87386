/** The keys that the database hands out. */
module Database {
  type FileId = int

  /** The default-constructed identifier: no file. */
  const NO_FILE: FileId := 0
}
