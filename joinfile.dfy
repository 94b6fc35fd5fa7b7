/** The constants and record shapes shared by the stages of the JoinFile
    pipeline. */
module JoinFile {

  /** Number of contact rows the pipeline is built for, and so the number of
      sequence keys every device is paired with. */
  const MaxLines: nat := 300

  const ContactsFamily := "contacts"
  const LastName := "lastname"
  const FirstName := "firstname"
  const Contact := "contact"
  const NickName := "nickname"

  /** The columns written for one joined record, in emission order. */
  const Columns := [LastName, FirstName, Contact, NickName]

  /** A Beam KV whose key is a string. */
  datatype KV<V> = KV(key: string, value: V)

  /** One Put carrying a single addColumn(family, column, value) on a row. */
  datatype Mutation = Put(rowKey: string, family: string, column: string, value: string)

  /** The runtime exceptions a processing step can throw. */
  datatype Exception =
    | NullPointer
    | ArrayIndexOutOfBounds(index: int)
}
