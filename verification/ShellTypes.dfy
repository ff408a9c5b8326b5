/** Result rows as the sqlite shell gets them, and what it keeps for printing them. */
module ShellTypes {
  import opened CText

  /** A column value: SQL NULL or a string. */
  datatype Field = Null | Text(text: string)

  type Row = seq<Field>

  /** The output modes that are modelled. */
  datatype Mode = ListMode | SemiMode | CsvMode | InsertMode

  /** The output settings of the shell, as far as these modes depend on them. */
  class CallbackData {
    const out: Output
    var cnt: nat
    var mode: Mode
    var showHeader: bool
    var separator: string
    var nullvalue: string
    var zDestTable: array?<char>

    constructor (out: Output, mode: Mode, showHeader: bool, separator: string, nullvalue: string)
      ensures this.out == out && cnt == 0 && this.mode == mode && this.showHeader == showHeader
      ensures this.separator == separator && this.nullvalue == nullvalue && zDestTable == null
    {
      this.out, cnt, this.mode, this.showHeader := out, 0, mode, showHeader;
      this.separator, this.nullvalue, zDestTable := separator, nullvalue, null;
    }
  }
}
