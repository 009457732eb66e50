/** influx4j's Query: an immutable (command, database, requiresPost)
    triple, its mutable Builder, and its hand-written equals and hashCode. */
module Influx4j {
  import opened JavaLang

  /** The argument of `equals(Object)`: null, a Query, or an object of
      some other class. */
  datatype Obj = Null | QueryRef(query: Query) | Foreign

  /** A query against InfluxDB. Its fields are final: a value, once built,
      never changes. */
  datatype Query = Query(command: JString, database: JString, requiresPost: bool)
  {
    /** `getCommand()`: the stored command, which together with the other
        two fields rebuilds this Query. */
    function GetCommand(): (r: JString)
      ensures this == Query(r, database, requiresPost)
    {
      command
    }

    /** `getDatabase()`: the stored database name. */
    function GetDatabase(): (r: JString)
      ensures this == Query(command, r, requiresPost)
    {
      database
    }

    /** `requiresPost()`: the stored flag. */
    function RequiresPost(): (r: bool)
      ensures this == Query(command, database, r)
    {
      requiresPost
    }

    /** `equals(Object)`: the identity shortcut, the null and class test,
        then a null-safe comparison of command and database. */
    function Equals(obj: Obj): (r: bool)
      ensures r <==> obj.QueryRef? && obj.query.command == command && obj.query.database == database
    {
      if obj == QueryRef(this) then true
      else if obj == Null || !obj.QueryRef? then false
      else
        var other := obj.query;
        if !NullSafeEquals(command, other.command) then false
        else if !NullSafeEquals(database, other.database) then false
        else true
    }

    /** The last term of hashCode: 0 when a POST is required, 1 otherwise. */
    function PostTerm(): (t: int32)
      ensures t == 0 <==> requiresPost
      ensures 0 <= t <= 1
    {
      if requiresPost then 0 else 1
    }

    /** What hashCode returns: the polynomial
        31^3 + 31^2 * hc(command) + 31 * hc(database) + PostTerm(),
        evaluated exactly and wrapped once into `int`. */
    function HashSpec(): int32
    {
      Wrap(31 * 31 * 31 + 31 * 31 * NullSafeHash(command) + 31 * NullSafeHash(database) + PostTerm())
    }

    /** `hashCode()`, step by step in wrapping `int` arithmetic. */
    method HashCode() returns (result: int32)
      ensures result == HashSpec()
    {
      var prime: int32 := 31;
      result := 1;
      ghost var exact: int := 1;
      result := Add(Mul(prime, result), NullSafeHash(command));
      HashStep(prime, exact, NullSafeHash(command));
      exact := prime * exact + NullSafeHash(command);
      assert result == Wrap(exact);
      result := Add(Mul(prime, result), NullSafeHash(database));
      HashStep(prime, exact, NullSafeHash(database));
      exact := prime * exact + NullSafeHash(database);
      assert result == Wrap(exact);
      result := Add(Mul(prime, result), PostTerm());
      HashStep(prime, exact, PostTerm());
      exact := prime * exact + PostTerm();
      assert exact == 31 * 31 * 31 + 31 * 31 * NullSafeHash(command) + 31 * NullSafeHash(database) + PostTerm();
    }

    /** A hash over the fields equals compares, and nothing else:
        31^2 + 31 * hc(command) + hc(database), wrapped into `int`. */
    function ConsistentHashSpec(): int32
    {
      Wrap(31 * 31 + 31 * NullSafeHash(command) + NullSafeHash(database))
    }

    /** hashCode without the requiresPost term, computed the same way. */
    method ConsistentHashCode() returns (result: int32)
      ensures result == ConsistentHashSpec()
    {
      var prime: int32 := 31;
      result := 1;
      result := Add(Mul(prime, result), NullSafeHash(command));
      HashStep(prime, 1, NullSafeHash(command));
      result := Add(Mul(prime, result), NullSafeHash(database));
      HashStep(prime, 31 + NullSafeHash(command), NullSafeHash(database));
    }
  }

  /** Query.Builder: three mutable fields, setters that return the builder
      itself, and build(), which copies the fields into a new Query. */
  class Builder {
    var command: JString
    var database: JString
    var requiresPost: bool

    /** The private constructor leaves every field at Java's default. */
    constructor ()
      ensures command == None && database == None && !requiresPost
    {
      command := None;
      database := None;
      requiresPost := false;
    }

    method SetCommand(command: JString) returns (self: Builder)
      modifies this
      ensures self == this
      ensures this.command == command
      ensures database == old(database) && requiresPost == old(requiresPost)
    {
      this.command := command;
      self := this;
    }

    method SetDatabase(database: JString) returns (self: Builder)
      modifies this
      ensures self == this
      ensures this.database == database
      ensures command == old(command) && requiresPost == old(requiresPost)
    {
      this.database := database;
      self := this;
    }

    method SetRequiresPost(postRequired: bool) returns (self: Builder)
      modifies this
      ensures self == this
      ensures requiresPost == postRequired
      ensures command == old(command) && database == old(database)
    {
      requiresPost := postRequired;
      self := this;
    }

    /** A new Query whose accessors report the builder's current fields. */
    method Build() returns (q: Query)
      ensures q.GetCommand() == command
      ensures q.GetDatabase() == database
      ensures q.RequiresPost() == requiresPost
    {
      q := Query(command, database, requiresPost);
    }
  }

  /** `Query.builder()`: a fresh builder with null strings and no POST. */
  method NewBuilder() returns (b: Builder)
    ensures fresh(b)
    ensures b.command == None && b.database == None && !b.requiresPost
  {
    b := new Builder();
  }

  /** Building, then calling every setter and building again, leaves the
      first Query as it was: it holds a copy of the fields, not the builder.
      The second Query and the builder both carry the new values. */
  method BuiltQueryIsSnapshot(b: Builder, command: JString, database: JString, postRequired: bool)
    returns (first: Query, second: Query)
    modifies b
    ensures first == Query(old(b.command), old(b.database), old(b.requiresPost))
    ensures second == Query(command, database, postRequired)
    ensures b.command == command && b.database == database && b.requiresPost == postRequired
  {
    first := b.Build();
    var self := b.SetCommand(command);
    self := self.SetDatabase(database);
    self := self.SetRequiresPost(postRequired);
    second := self.Build();
  }

  /** `builder().build()` has no command, no database and no POST, so it
      equals exactly the Queries whose two strings are null. */
  method DefaultQuery() returns (q: Query)
    ensures q.GetCommand() == None && q.GetDatabase() == None && !q.RequiresPost()
    ensures q.HashSpec() == 29792
    ensures forall other: Query :: q.Equals(QueryRef(other)) <==> other.command == None && other.database == None
  {
    var b := NewBuilder();
    q := b.Build();
  }

  /** equals is reflexive, symmetric and transitive on Queries, and false
      for null and for objects of other classes. */
  lemma EqualsIsEquivalence(a: Query, b: Query, c: Query)
    ensures a.Equals(QueryRef(a))
    ensures a.Equals(QueryRef(b)) <==> b.Equals(QueryRef(a))
    ensures a.Equals(QueryRef(b)) && b.Equals(QueryRef(c)) ==> a.Equals(QueryRef(c))
    ensures !a.Equals(Null) && !a.Equals(Foreign)
  {
  }

  /** Equality ignores requiresPost: queries with the same command and
      database are equal whatever their flags. */
  lemma EqualsIgnoresPost(c: JString, d: JString, p1: bool, p2: bool)
    ensures Query(c, d, p1).Equals(QueryRef(Query(c, d, p2)))
  {
  }

  /** Queries whose commands differ are never equal. */
  lemma DifferentCommandsNotEqual(c1: JString, c2: JString, d: JString, p1: bool, p2: bool)
    requires c1 != c2
    ensures !Query(c1, d, p1).Equals(QueryRef(Query(c2, d, p2)))
  {
  }

  /** Since every string hash is itself a wrapped polynomial, the value of
      hashCode is one nested polynomial over all characters of command and
      database, wrapped once. */
  lemma HashSpecIsPolynomial(q: Query)
    ensures q.HashSpec() == Wrap(31 * 31 * 31 + 31 * 31 * ExactHash(q.command) + 31 * ExactHash(q.database) + q.PostTerm())
  {
    var hc, hd := NullSafeHash(q.command), NullSafeHash(q.database);
    assert (hc - ExactHash(q.command)) % TWO_32 == 0;
    assert (hd - ExactHash(q.database)) % TWO_32 == 0;
    WrapCombine(hc, ExactHash(q.command), hd, ExactHash(q.database), q.PostTerm());
  }

  /** Wrapping x + 1 gives the successor of Wrap(x) modulo 2^32, which is
      never Wrap(x) itself. */
  lemma WrapSuccessor(x: int)
    ensures Wrap(x + 1) == Wrap(Wrap(x) + 1)
    ensures Wrap(x + 1) != Wrap(x)
  {
    var w := Wrap(x);
    var k := (w - x) / TWO_32;
    assert w + 1 == (x + 1) + k * TWO_32;
    ModShift(x + 1, k);
    WrapCongruent(w + 1, x + 1);
  }

  /** The hash of a query that does not require POST is one more, modulo
      2^32, than that of the same query requiring POST. */
  lemma HashPostOffset(c: JString, d: JString)
    ensures Query(c, d, false).HashSpec() == Wrap(Query(c, d, true).HashSpec() + 1)
  {
    var base := 31 * 31 * 31 + 31 * 31 * NullSafeHash(c) + 31 * NullSafeHash(d);
    assert Query(c, d, true).HashSpec() == Wrap(base);
    assert Query(c, d, false).HashSpec() == Wrap(base + 1);
    WrapSuccessor(base);
  }

  /** The equals/hashCode contract is broken: two queries that differ only
      in requiresPost are equal, yet their hash codes differ. */
  lemma EqualsButHashDiffers(a: Query, b: Query)
    requires a.command == b.command && a.database == b.database
    requires a.requiresPost != b.requiresPost
    ensures a.Equals(QueryRef(b))
    ensures a.HashSpec() != b.HashSpec()
  {
    var withPost, withoutPost := Query(a.command, a.database, true), Query(a.command, a.database, false);
    assert {a, b} == {withPost, withoutPost};
    HashPostOffset(a.command, a.database);
    WrapSuccessor(withPost.HashSpec());
    assert Wrap(withPost.HashSpec()) == withPost.HashSpec();
  }

  /** A concrete instance: the query built with nothing set, with and
      without requiresPost, hashes to 29791 and 29792. */
  lemma EmptyQueriesWitness()
    ensures Query(None, None, true).Equals(QueryRef(Query(None, None, false)))
    ensures Query(None, None, true).HashSpec() == 29791
    ensures Query(None, None, false).HashSpec() == 29792
  {
  }

  /** The corrected hash respects equals: equal queries hash alike. */
  lemma ConsistentHashRespectsEquals(a: Query, b: Query)
    requires a.Equals(QueryRef(b))
    ensures a.ConsistentHashSpec() == b.ConsistentHashSpec()
  {
  }
}
