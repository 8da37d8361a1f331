/** The result codes of flight/custody.h. */
module Codes {
  const E_STRING := -1
  const E_NUMBER := -2
  const E_SPACE := -3
  const E_ARG := -4
}
