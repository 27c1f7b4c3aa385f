/** What the parts of the dialog library share: its longest text
    (dialog/dialog.h:45) and the end of a string. */
module Dialog {
  const MAX_LEN := 2048
  const NUL := '\0'
}
