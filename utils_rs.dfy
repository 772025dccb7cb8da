/** The backend's identifier classification (`src-tauri/src/utils.rs`):
    `is_ean13` and `get_identifier_type`, which tags an identifier for the
    `book_identifiers` table. Rust's `char::is_numeric` is modelled on ASCII
    input, where it is the class `[0-9]` and byte length equals character count. */
module BackendUtils {
  import opened Wrappers
  import opened Text
  import Utils

  /** Rust's `u32`, the type of `sum` and of the parsed digits. */
  newtype u32 = x: int | 0 <= x < 0x1_0000_0000

  /** `c.is_numeric()` on ASCII characters. */
  predicate IsNumeric(c: char) { '0' <= c <= '9' }

  /** `identifier.chars().filter(|c| c.is_numeric()).collect::<String>()` */
  function NumericChars(s: string): string {
    if s == [] then [] else (if IsNumeric(s[0]) then [s[0]] else []) + NumericChars(s[1..])
  }

  /** On ASCII input the Rust filter keeps exactly the characters the front
      end's `replace(/\D/g, "")` keeps. */
  lemma {:induction false} NumericCharsAreDigits(s: string)
    ensures NumericChars(s) == Utils.Digits(s)
  {
    if s != [] { NumericCharsAreDigits(s[1..]); }
  }

  /** `ch.to_string().parse::<u32>()` for a single character. */
  function ParseDigit(c: char): (r: Option<u32>)
    ensures r.Some? <==> IsDigit(c)
    ensures r.Some? ==> r.value as int == DigitValue(c)
  {
    if '0' <= c <= '9' then Some((c as int - '0' as int) as u32) else None
  }

  /** `is_ean13`: the same verdict as the front end's `isEAN13`, with every
      `u32` operation shown free of overflow and underflow. */
  method IsEan13(identifier: string) returns (ok: bool)
    ensures ok == Utils.Ean13Accepts(identifier)
    ensures |Utils.Digits(identifier)| != 13 ==> !ok
  {
    var digits := NumericChars(identifier);
    NumericCharsAreDigits(identifier);
    if |digits| != 13 {
      return false;
    }
    var sum: u32 := 0;
    for i := 0 to 12
      invariant sum as int <= 27 * i
      invariant sum as int == Utils.Ean13Sum(digits, i)
    {
      match ParseDigit(digits[i]) {
        case Some(d) =>
          sum := sum + d * if i % 2 == 0 then 1 else 3;
        case None =>
      }
    }
    var checkDigit := (10 - sum % 10) % 10;
    match ParseDigit(digits[12]) {
      case Some(d) => ok := d == checkDigit;
      case None => ok := false;
    }
  }

  /** The `type` column values of `book_identifiers`. */
  datatype IdentifierType = Isbn10 | Ean13 | Isbn13 {
    function Tag(): string {
      match this
      case Isbn10 => "ISBN_10"
      case Ean13 => "EAN_13"
      case Isbn13 => "ISBN_13"
    }
  }

  const InvalidLength := "Invalid identifier length"

  /** `get_identifier_type`: decided by the digit count alone, except that 13
      digits are split by the check digit. Ten digits are tagged ISBN-10
      without any checksum test. */
  function GetIdentifierType(identifier: string): (r: Result<IdentifierType>)
    ensures r == Ok(Isbn10) <==> |Utils.Digits(identifier)| == 10
    ensures r == Ok(Ean13) <==> Utils.Ean13Accepts(identifier)
    ensures r == Ok(Isbn13) <==> |Utils.Digits(identifier)| == 13 && !Utils.Ean13Accepts(identifier)
    ensures r.Err? <==> |Utils.Digits(identifier)| != 10 && |Utils.Digits(identifier)| != 13
    ensures r.Err? ==> r.message == InvalidLength
  {
    var digits := NumericChars(identifier);
    NumericCharsAreDigits(identifier);
    if |digits| == 10 then Ok(Isbn10)
    else if |digits| == 13 then
      if Utils.Ean13Accepts(digits) then Ok(Ean13) else Ok(Isbn13)
    else Err(InvalidLength)
  }

  /** Non-digit characters are ignored: classifying the digits alone gives the
      same answer. */
  lemma IdentifierTypeOfDigits(identifier: string)
    ensures GetIdentifierType(identifier) == GetIdentifierType(Utils.Digits(identifier))
  {
    Utils.DigitsDecide(identifier);
  }
}
