# influx4j Query, modelled in Dafny

influx4j describes a query against InfluxDB with an immutable `Query`
value: a command string, a database name (both may be null) and a flag
saying whether the command must be sent by POST instead of GET. Queries
are made through a mutable `Query.Builder`, whose setters return the
builder itself and whose `build()` copies its three fields into a new
`Query`. `Query` overrides `equals`, which compares command and database
null-safely and ignores the flag, and `hashCode`, a polynomial in 31 over
command, database and the flag in Java's wrapping 32-bit `int` arithmetic.

The project has two modules:

- `JavaLang` (`java_lang.dfy`): nullable strings as `Option<string>`
  (None is null), Java's `int` as `int32` with `Wrap`ping `Add` and `Mul`,
  `String.equals` with a possibly-null argument, and `String.hashCode` as
  the JDK documents it (`h = 31 * h + c` over the characters, equal to
  s[0]·31^(n-1) + … + s[n-1] modulo 2^32).
- `Influx4j` (`query.dfy`): `Query` as a datatype (its fields are final),
  `Builder` as a class with three mutable fields, `builder()` as
  `NewBuilder`, `equals(Object)` as `Query.Equals` over an `Obj` that is
  null, a Query or an object of another class, and `hashCode()` as the
  method `Query.HashCode`, three reassignments of `result` in wrapping
  arithmetic, proved equal to the exact polynomial wrapped once
  (`Query.HashSpec`), itself one nested polynomial over all characters
  of command and database wrapped once (`HashSpecIsPolynomial`).

`hashCode` (Query.java:94) folds `requiresPost ? 0 : 1` into the hash,
while `equals` (Query.java:100-120) ignores the flag, so equal Queries can
hash differently, against the contract of `Object.hashCode`. The model
follows the code; see "## Findings".

## Model

| member | source | states |
|---|---|---|
| `JavaLang.Wrap` | src/main/java/com/zaxxer/influx4j/Query.java:92-94 | Java `int` arithmetic: the result lies in the 32-bit range and is congruent to the exact value modulo 2^32, and equals it when the exact value fits |
| `JavaLang.HashStep` | src/main/java/com/zaxxer/influx4j/Query.java:92-94 | one step `prime * result + h`, with both operations wrapping, equals the exact `prime * acc + h` wrapped once |
| `JavaLang.Add` | src/main/java/com/zaxxer/influx4j/Query.java:92-94 | Java's `int` `+`: the sum congruent to the exact sum modulo 2^32 |
| `JavaLang.Mul` | src/main/java/com/zaxxer/influx4j/Query.java:92-94 | Java's `int` `*`: the product congruent to the exact product modulo 2^32 |
| `JavaLang.StringEquals` | src/main/java/com/zaxxer/influx4j/Query.java:110 | `String.equals` with a possibly null argument is true exactly when the argument is a string with the same characters |
| `JavaLang.NullSafeEquals` | src/main/java/com/zaxxer/influx4j/Query.java:107-117 | `a == null ? b == null : a.equals(b)` holds exactly when the two nullable strings are equal (both null, or both present with the same characters) |
| `JavaLang.StringHash` | src/main/java/com/zaxxer/influx4j/Query.java:92-93 | `String.hashCode`, computed character by character in wrapping arithmetic, equals the documented polynomial s[0]·31^(n-1) + … + s[n-1] modulo 2^32 |
| `JavaLang.NullSafeHash` | src/main/java/com/zaxxer/influx4j/Query.java:92-93 | `s == null ? 0 : s.hashCode()`: 0 for null, the documented string polynomial wrapped into `int` otherwise |
| `Influx4j.Builder.constructor` | src/main/java/com/zaxxer/influx4j/Query.java:19-24 | a new builder has a null command, a null database and `requiresPost` false (Java field defaults) |
| `Influx4j.NewBuilder` | src/main/java/com/zaxxer/influx4j/Query.java:46-48 | `Query.builder()` returns a fresh builder in the default state |
| `Influx4j.Builder.SetCommand` | src/main/java/com/zaxxer/influx4j/Query.java:26-29 | sets the command, leaves database and flag unchanged, returns the same builder |
| `Influx4j.Builder.SetDatabase` | src/main/java/com/zaxxer/influx4j/Query.java:31-34 | sets the database, leaves command and flag unchanged, returns the same builder |
| `Influx4j.Builder.SetRequiresPost` | src/main/java/com/zaxxer/influx4j/Query.java:36-39 | sets the flag, leaves command and database unchanged, returns the same builder |
| `Influx4j.Builder.Build` | src/main/java/com/zaxxer/influx4j/Query.java:41-43 | the new Query's `getCommand()`, `getDatabase()` and `requiresPost()` report the builder's current fields and the builder is not changed |
| `Influx4j.Query.GetCommand` | src/main/java/com/zaxxer/influx4j/Query.java:65-67 | `getCommand()` returns the command the Query was built with, unchanged |
| `Influx4j.Query.GetDatabase` | src/main/java/com/zaxxer/influx4j/Query.java:79-81 | `getDatabase()` returns the database the Query was built with, unchanged |
| `Influx4j.Query.RequiresPost` | src/main/java/com/zaxxer/influx4j/Query.java:83-85 | `requiresPost()` returns the flag the Query was built with |
| `Influx4j.BuiltQueryIsSnapshot` | src/main/java/com/zaxxer/influx4j/Query.java:55-60 | a Query keeps the values copied at `build()`: calling all three setters afterwards changes the builder and the next Query built, never the first |
| `Influx4j.DefaultQuery` | src/main/java/com/zaxxer/influx4j/Query.java:46-48 | `builder().build()` has null command and database and no POST, hashes to 29792, and equals exactly the Queries whose two strings are null |
| `Influx4j.Query.Equals` | src/main/java/com/zaxxer/influx4j/Query.java:100-120 | `equals` is true iff the argument is a Query with an equal-or-both-null command and an equal-or-both-null database; false for null and other classes; `requiresPost` is not compared |
| `Influx4j.EqualsIsEquivalence` | src/main/java/com/zaxxer/influx4j/Query.java:100-120 | `equals` is reflexive, symmetric and transitive on Queries and false for null and non-Query arguments |
| `Influx4j.EqualsIgnoresPost` | src/main/java/com/zaxxer/influx4j/Query.java:106-119 | two Queries with the same command and database are equal whatever their `requiresPost` |
| `Influx4j.DifferentCommandsNotEqual` | src/main/java/com/zaxxer/influx4j/Query.java:107-111 | two Queries with different commands are never equal |
| `Influx4j.Query.PostTerm` | src/main/java/com/zaxxer/influx4j/Query.java:94 | the flag's hash term is 0 exactly when a POST is required and 1 otherwise |
| `Influx4j.HashSpecIsPolynomial` | src/main/java/com/zaxxer/influx4j/Query.java:89-96 | the value of `hashCode` is the single polynomial 31^3 + 31^2·P(command) + 31·P(database) + (requiresPost ? 0 : 1) over the exact string polynomials P (P(null) = 0), wrapped once into `int` |
| `Influx4j.Query.HashCode` | src/main/java/com/zaxxer/influx4j/Query.java:89-96 | the stepwise `hashCode` equals 31^3 + 31^2·hc(command) + 31·hc(database) + (requiresPost ? 0 : 1), evaluated exactly and wrapped once, with hc(null) = 0 |
| `Influx4j.WrapSuccessor` | src/main/java/com/zaxxer/influx4j/Query.java:94 | adding one before wrapping is adding one after wrapping, and never gives back the same `int` |
| `Influx4j.HashPostOffset` | src/main/java/com/zaxxer/influx4j/Query.java:89-96 | the hash without POST is the hash with POST plus 1 modulo 2^32 |
| `Influx4j.EqualsButHashDiffers` | src/main/java/com/zaxxer/influx4j/Query.java:89-120 | two Queries differing only in `requiresPost` are `equals` yet have different hash codes |
| `Influx4j.EmptyQueriesWitness` | src/main/java/com/zaxxer/influx4j/Query.java:89-120 | the all-null Queries with and without POST are equal and hash to 29791 and 29792 |
| `Influx4j.Query.ConsistentHashCode` | src/main/java/com/zaxxer/influx4j/Query.java:89-93 | the corrected hash, the same steps without the flag term, equals 31^2 + 31·hc(command) + hc(database) wrapped once |
| `Influx4j.ConsistentHashRespectsEquals` | src/main/java/com/zaxxer/influx4j/Query.java:100-120 | with the corrected hash, Queries that are `equals` have equal hash codes |

## Left out

- `getCommandWithUrlEncoded` and `encode` (Query.java:72-74, 128-134): they delegate to `java.net.URLEncoder`, which is not part of this model; their `UnsupportedEncodingException` path cannot occur on a JRE.
- `JavaLang.StringHash`: treats each Dafny `char` (a Unicode scalar value) as one unit, whereas Java hashes UTF-16 code units; strings with characters outside the Basic Multilingual Plane hash differently.
- The `this == obj` reference test in `equals` is modelled as value equality of the argument with this Query; identical references have equal values and the field comparison gives true for equal values, so the result is the same.
- The HTTP transport that chooses GET or POST from `requiresPost`: not part of this model.
- Thread-safety and safe publication of the immutable Query: concurrency is not modelled.

## Findings

| source | as written | input that shows it | evidently intended | confidence | as-written member | corrected member |
|---|---|---|---|---|---|---|
| src/main/java/com/zaxxer/influx4j/Query.java:94 | `hashCode` adds `requiresPost ? 0 : 1`, while `equals` (lines 100-120) ignores `requiresPost`, so equal objects can hash differently, against the contract of `Object.hashCode` | `builder().setRequiresPost(true).build()` and `builder().build()`: equal, hashes 29791 and 29792 | hash only the fields `equals` compares: command and database | medium, not executed | `Influx4j.EqualsButHashDiffers` | `Influx4j.ConsistentHashRespectsEquals` |
