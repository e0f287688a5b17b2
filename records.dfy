/** The values kroppzeug keeps in its global variables. */
module Records {
  import opened Wrappers

  /**
    One entry of the global `hosts` list, the Python list
    `[shortcut, description, update, autocmd]`; `None` stands for `False`.
   */
  datatype HostRecord = HostRecord(
    shortcut: string,
    description: string,
    update: Option<string>,
    autocmd: Option<string>)

  /** The two globals the main loop changes: `error_message` and `hostname`. */
  datatype UiState = UiState(errorMessage: Option<string>, hostname: bool)
}
