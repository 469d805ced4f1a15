/** Values shared by every part of the model: optional values, the
    exceptions the bot raises, and the configured constants. */
module Common {

  /** Python's `None` or a value. */
  datatype Option<T> = None | Some(value: T)

  /** The exceptions raised by the modelled code, by kind. */
  datatype Error =
    | InvalidKey                  // "telegram_id and username are None!" and its cache twin
    | DoesNotExist                // peewee's Model.DoesNotExist
    | UserAlready                 // UserAlreadyException
    | UserBlocked                 // UserBlockedException (oldest revision)
    | IntegrityError              // a UNIQUE or PRIMARY KEY constraint refused a write
    | KeyError                    // `attributes['...']` on a missing key
    | TypeError                   // a string concatenated with None
    | CannotAddEntry              // CannotAddEntryException
    | TitleMissing                // "Title is None"
    | RootDoesNotExist            // RootDoesNotExistException
    | RootIsConfiguredIncorrectly // RootIsConfiguredIncorrectlyException
    | OperatorAbort               // the operator refused to recreate the tables: exit(1)
    | PatternError                // re.error: `re.compile` rejected a pattern
    | ParseError                  // ParseException
    | CallbackDataOverflow        // InlineKeyboardButtonCallbackDataOverflow

  /** A calendar date (`DateField`, `datetime.date`). */
  datatype Date = Date(year: int, month: int, day: int)

  /** One entry of a keyword-argument or data dict: not passed, passed as None, or passed with a value. */
  datatype Field<T> = Absent | Null | Given(value: T)

  /** `attributes.get(key, default)`. */
  function Get<T>(f: Field<T>, default: Option<T>): (r: Option<T>)
    ensures f.Absent? ==> r == default
    ensures f.Null? ==> r == None
    ensures f.Given? ==> r == Some(f.value)
  {
    match f
    case Absent => default
    case Null => None
    case Given(v) => Some(v)
  }

  /** The dict entry for a value that may be None. */
  function FieldOf<T>(o: Option<T>): (f: Field<T>)
    ensures Get(f, None) == o && !f.Absent?
  {
    if o.Some? then Given(o.value) else Null
  }

  /** A value or the exception that replaced it. */
  datatype Result<T> = Ok(value: T) | Err(error: Error)

  /** Normal return or an exception, for operations that return nothing. */
  datatype Outcome = Pass | Fail(error: Error)

  /** `DEFAULT_TELEGRAM_ID`: the stored id of an account whose Telegram id is not known yet. */
  const DefaultTelegramId: int := 0

  /** `REQUESTED_ACCESS_FOR_BAN`: more requests than this, while blocked, mean banned. */
  const RequestedAccessForBan: int := 5

  /** `len(USER_DB_MODELS)`: the number of user tables a complete root appears in. */
  const UserTableCount: nat := 3
}
