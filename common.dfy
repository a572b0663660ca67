/** Vocabulary shared by the job engine: optional values, pass/fail outcomes,
    remote paths, remote stats and the decimal rendering used in names. */
module Common {

  datatype Option<+T> = None | Some(value: T)

  /** The result of a step that either completes or raises. */
  datatype Outcome<+E> = Pass | Fail(error: E)

  /** The result of a step that computes a value or raises. */
  datatype Result<+T, +E> = Ok(value: T) | Err(error: E)

  /** A remote path, as its segments below the server root (`[]` is the root). */
  type Path = seq<string>

  /** Whole seconds on the remote or local clock. */
  type Time = int

  /** What the remote file system reports for one path. */
  datatype Stat = Stat(size: nat, modified: Time)

  /** The `/a/b` text of a path. */
  function Posix(p: Path): string
  {
    if p == [] then "/" else PosixTail(p)
  }

  function PosixTail(p: Path): string
  {
    if p == [] then "" else "/" + p[0] + PosixTail(p[1..])
  }

  function DigitChar(d: nat): (c: char)
    requires d < 10
    ensures '0' <= c <= '9'
  {
    "0123456789"[d]
  }

  /** Decimal digits of a natural number, most significant first. */
  function Digits(n: nat): (s: string)
    ensures |s| > 0
    ensures forall i :: 0 <= i < |s| ==> '0' <= s[i] <= '9'
    decreases n
  {
    if n < 10 then [DigitChar(n)] else Digits(n / 10) + [DigitChar(n % 10)]
  }

  /** Python's `str(n)` for an integer. */
  function Decimal(n: int): (s: string)
    ensures |s| > 0
    ensures n >= 0 <==> s[0] != '-'
  {
    if n >= 0 then Digits(n) else "-" + Digits(-n)
  }
}
