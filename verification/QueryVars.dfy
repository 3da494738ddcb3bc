/** Placeholders and the variable allocator of the query compiler. */
module QueryVars {

  function Zs(n: nat): (s: string)
    ensures |s| == n
  {
    if n == 0 then "" else Zs(n - 1) + "z"
  }

  function Letter(i: nat): char
    requires i < 26
  {
    'a' + i as char
  }

  // The n-th placeholder: the last letter counts up to z, then a new letter is appended.
  function Placeholder(prefix: string, n: nat): string {
    "$" + prefix + Zs(n / 26) + [Letter(n % 26)]
  }

  predicate EndsInLetter(s: string) {
    s != "" && 'a' <= s[|s| - 1] <= 'z'
  }

  function NextPlaceholder(curr: string): string
    requires EndsInLetter(curr)
  {
    var last := curr[|curr| - 1];
    if last == 'z' then curr + "a" else curr[..|curr| - 1] + [(last as int + 1) as char]
  }

  lemma NextIsNth(prefix: string, n: nat)
    ensures EndsInLetter(Placeholder(prefix, n))
    ensures NextPlaceholder(Placeholder(prefix, n)) == Placeholder(prefix, n + 1)
  {
    var p := Placeholder(prefix, n);
    var q, r := n / 26, n % 26;
    if r == 25 {
      assert (n + 1) / 26 == q + 1 && (n + 1) % 26 == 0;
      assert Zs(q + 1) == Zs(q) + "z";
      assert p + "a" == "$" + prefix + (Zs(q) + "z") + "a";
    } else {
      assert (n + 1) / 26 == q && (n + 1) % 26 == r + 1;
      assert p[..|p| - 1] == "$" + prefix + Zs(q);
    }
  }

  lemma PlaceholdersDistinct(prefix: string, m: nat, n: nat)
    requires Placeholder(prefix, m) == Placeholder(prefix, n)
    ensures m == n
  {
    var a, b := Placeholder(prefix, m), Placeholder(prefix, n);
    assert |a| == 2 + |prefix| + m / 26 && |b| == 2 + |prefix| + n / 26;
    assert a[|a| - 1] == Letter(m % 26) && b[|b| - 1] == Letter(n % 26);
  }

  predicate Injective(m: map<string, string>) {
    forall k, o | k in m && o in m && m[k] == m[o] :: k == o
  }

  class VarAllocator {
    const prefix: string
    var next: string                       // what the placeholder generator yields next
    var placeholders: map<string, string>     // value to placeholder
    ghost var count: nat

    ghost predicate Valid()
      reads this
    {
      && next == Placeholder(prefix, count)
      && (forall k | k in placeholders :: exists i: nat :: i < count && placeholders[k] == Placeholder(prefix, i))
      && Injective(placeholders)
    }

    constructor (prefix: string)
      ensures Valid() && placeholders == map[] && this.prefix == prefix && count == 0
    {
      this.prefix := prefix;
      next := "$" + prefix + "a";
      placeholders := map[];
      count := 0;
      new;
      assert next == Placeholder(prefix, 0);
    }

    method NextVar() returns (v: string)
      requires Valid()
      modifies this`next, this`count
      ensures v == Placeholder(prefix, old(count)) && count == old(count) + 1
      ensures next == Placeholder(prefix, count)
    {
      v := next;
      NextIsNth(prefix, count);
      next := NextPlaceholder(next);
      count := count + 1;
    }

    // A value keeps its placeholder; a new value gets one that no other value has.
    method Alloc(value: string) returns (v: string)
      requires Valid()
      modifies this
      ensures Valid() && value in placeholders && placeholders[value] == v
      ensures placeholders == old(placeholders)[value := v] && (value in old(placeholders) ==> placeholders == old(placeholders))
      ensures value !in old(placeholders) ==> v == Placeholder(prefix, old(count)) && forall k | k in old(placeholders) :: old(placeholders)[k] != v
    {
      if value in placeholders {
        v := placeholders[value];
        return;
      }
      ghost var before := count;
      v := NextVar();
      forall k | k in placeholders
        ensures placeholders[k] != v
      {
        var i: nat :| i < before && placeholders[k] == Placeholder(prefix, i);
        if placeholders[k] == v {
          PlaceholdersDistinct(prefix, i, before);
        }
      }
      placeholders := placeholders[value := v];
    }

    method Reset()
      requires Valid()
      modifies this
      ensures Valid() && placeholders == map[] && count == 0
    {
      next := "$" + prefix + "a";
      placeholders := map[];
      count := 0;
      assert next == Placeholder(prefix, 0);
    }

    // The variables sent with a query: every placeholder maps back to its value.
    method Variables() returns (variables: map<string, string>)
      requires Valid()
      ensures Inverse(placeholders, variables)
    {
      variables := map[];
      var rest := placeholders.Keys;
      while rest != {}
        invariant rest <= placeholders.Keys
        invariant forall k | k in placeholders && k !in rest :: placeholders[k] in variables && variables[placeholders[k]] == k
        invariant forall v | v in variables :: variables[v] in placeholders && placeholders[variables[v]] == v
        decreases rest
      {
        var value :| value in rest;
        variables := variables[placeholders[value] := value];
        rest := rest - {value};
      }
    }
  }

  ghost predicate Inverse(placeholders: map<string, string>, variables: map<string, string>) {
    && (forall k | k in placeholders :: placeholders[k] in variables && variables[placeholders[k]] == k)
    && (forall v | v in variables :: variables[v] in placeholders && placeholders[variables[v]] == v)
  }
}
