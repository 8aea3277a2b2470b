/** The words and limits the four programs share. */
module Protocol {
  datatype Os = Linux | Windows

  const HELO := "HELO"
  const AUTH := "AUTH"
  const EXEC := "EXEC"

  const OK := "200"
  const CONTINUE := "300"
  const ABORT := "400"
  const END_OF_LINE := " \r\n.\r\n"

  const BUFF_SIZE: nat := 65535
  const MAX_TOKEN_LENGTH: nat := 255
  const INT_LIMIT: nat := 0x8000_0000 // one past the largest int

  const SPACE: set<char> := {' '}
  const SEMICOLON: set<char> := {';'}
  const COMMA: set<char> := {','}
}
