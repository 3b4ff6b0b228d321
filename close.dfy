/**
 * src/close.rs: the `close` directive as a record, the date at which an
 * account is closed and the account.  Its parser, `close::close`, is not
 * part of this model; the directive parser takes it as a parameter.
 */
module Closes {
  import ParserDates
  import Accounts

  datatype Close = Close(date: ParserDates.Date, account: Accounts.Account)
}
