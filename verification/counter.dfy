/** The monitor `ThreadBasicsBase.Counter`: a Java `int` field `count`, starting
    at 0, with `synchronized` methods `increment` and `getValue`. Each call is
    one atomic step. `count++` on a Java `int` wraps from the largest value to
    the smallest, so the field is modelled as a 32-bit two's complement value.
 */
module Counter {

  const MIN_INT: int := -0x8000_0000
  const MAX_INT: int := 0x7fff_ffff
  const TWO_TO_32: int := 0x1_0000_0000

  /** The values of a Java `int`. */
  type Int32 = x: int | MIN_INT <= x <= MAX_INT

  /** The Java `int` that an exact integer result is truncated to: the unique
      32-bit value congruent to `x` modulo 2^32. */
  function Wrap(x: int): (r: Int32)
    ensures (x - r) % TWO_TO_32 == 0
    ensures MIN_INT <= x <= MAX_INT ==> r == x
  {
    (x - MIN_INT) % TWO_TO_32 + MIN_INT
  }

  /** Adding after truncating truncates to the same value as adding exactly. */
  lemma WrapAdd(x: int, n: int)
    ensures Wrap(Wrap(x) + n) == Wrap(x + n)
  {
  }

  datatype Counter = Counter(count: Int32)

  /** `new Counter()`: the field initialiser `count = 0`. */
  function New(): (c: Counter)
    ensures GetValue(c) == 0
  {
    Counter(0)
  }

  /** `increment()`: `count++` on a Java `int`. The new value is the old one plus
      one, truncated to 32 bits: it wraps only at the largest `int`. */
  function Increment(c: Counter): (c': Counter)
    ensures c'.count == Wrap(c.count + 1)
    ensures c.count < MAX_INT ==> GetValue(c') == GetValue(c) + 1
    ensures c.count == MAX_INT ==> GetValue(c') == MIN_INT
  {
    if c.count == MAX_INT then Counter(MIN_INT) else Counter(c.count + 1)
  }

  /** `getValue()`: reads the field; the counter is left as it was (the model
      returns no new state because there is none). */
  function GetValue(c: Counter): (v: Int32)
  {
    c.count
  }

  /** `n` increments in a row, whichever threads make them. */
  function IncrementTimes(c: Counter, n: nat): (c': Counter)
    ensures c'.count == Wrap(c.count + n)
    decreases n
  {
    if n == 0 then c
    else
      var c1 := Increment(IncrementTimes(c, n - 1));
      WrapAdd(c.count + n - 1, 1);
      c1
  }

  /** Starting from a new counter, `n` increments read back as `n` as long as
      `n` fits in an `int`; one more than `MAX_INT` reads back as `MIN_INT`. */
  lemma IncrementsFromZero(n: nat)
    ensures n <= MAX_INT ==> GetValue(IncrementTimes(New(), n)) == n
    ensures n == MAX_INT + 1 ==> GetValue(IncrementTimes(New(), n)) == MIN_INT
  {
  }
}
