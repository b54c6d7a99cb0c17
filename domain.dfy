/** The value types every schema of the application shares. */
module Domain {

  /** Primary keys: the positive integers the database assigns. */
  type Id = x: int | 1 <= x witness 1

  /** A `DateField` value as a day number: consecutive days differ by one. */
  type Day = int

  /** A `TimeField` value, in minutes since midnight. */
  type TimeOfDay = m: int | 0 <= m < 24 * 60

  /** `date.weekday()`: 0 is Monday, 5 Saturday, 6 Sunday. */
  type Weekday = w: int | 0 <= w < 7
}
