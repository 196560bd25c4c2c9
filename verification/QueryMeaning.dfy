/** The two sides of a list query plan, on the roots of its lookups. */
module QueryMeaning {
  import opened Sequences
  import opened Dicts
  import opened InputOrder
  import opened InputEnumeration
  import opened CalculationBuckets
  import opened BucketMeaning
  import opened QueryPlan

  /** The root is an input, or names nothing and is a manager-typed input's name with `_id` behind it. */
  ghost predicate RootsInput(cls: ManagerClass, root: string) {
    || root in cls.fields
    || (root !in cls.properties && exists n :: n in cls.fields && n in cls.managerInputs && root == n + "_id")
  }

  /** The root is a property, and no input. */
  ghost predicate RootsProperty(cls: ManagerClass, root: string) {
    root in cls.properties && root !in cls.fields
  }

  lemma SuffixMeans(root: string, n: string)
    ensures root == n + "_id" <==> WithoutIdSuffix(root) == Some(n)
  {
    if root == n + "_id" {
      assert root[..|root| - 3] == n && root[|root| - 3..] == "_id";
    }
    if WithoutIdSuffix(root) == Some(n) {
      assert root[|root| - 3..] == "_id";
      assert root == n + root[|root| - 3..];
    }
  }

  lemma SideMeans(cls: ManagerClass, lookup: string)
    ensures SideOf(cls, lookup).InputSide? <==> RootsInput(cls, Root(lookup))
    ensures SideOf(cls, lookup).DeferredSide? <==> RootsProperty(cls, Root(lookup))
  {
    var root := Root(lookup);
    forall n ensures root == n + "_id" <==> WithoutIdSuffix(root) == Some(n) {
      SuffixMeans(root, n);
    }
  }

  /** A mapping is refused for a lookup whose root is neither, and else each item goes to its side. */
  lemma PartitionMeans(cls: ManagerClass, mapping: Definitions, item: (string, Raw))
    ensures PartitionedMapping(cls, mapping).Ok?
       <==> forall i :: i in mapping ==> RootsInput(cls, Root(i.0)) || RootsProperty(cls, Root(i.0))
    ensures PartitionedMapping(cls, mapping).Ok? ==>
              var (inputs, deferred) := PartitionedMapping(cls, mapping).value;
              && (item in inputs <==> item in mapping && RootsInput(cls, Root(item.0)))
              && (item in deferred <==> item in mapping && RootsProperty(cls, Root(item.0)))
  {
    AllSided(cls, mapping);
    forall i: (string, Raw)
      ensures SideOf(cls, i.0).UnknownSide? <==> !RootsInput(cls, Root(i.0)) && !RootsProperty(cls, Root(i.0))
    {
      SideMeans(cls, i.0);
    }
    SideMeans(cls, item.0);
  }

  /** The three mappings of a plan are parted one by one. */
  lemma PlanIsParted(cls: ManagerClass, plan: QueryParameterPlan)
    requires Partition(cls, plan).Ok?
    ensures var (first, second) := Partition(cls, plan).value;
            && PartitionedMapping(cls, plan.filters) == Ok((first.filters, second.filters))
            && PartitionedMapping(cls, plan.excludes) == Ok((first.excludes, second.excludes))
            && PartitionedMapping(cls, plan.normalizedExcludes)
               == Ok((first.normalizedExcludes, second.normalizedExcludes))
  {
  }

  /** What only the stages refuse: a root that names nothing, and is a manager-typed property's name with
      `_id` behind it, but not a manager-typed input's. */
  lemma PropertyAliasMeans(cls: ManagerClass, lookup: string)
    ensures PropertyAlias(cls, lookup)
       <==> var root := Root(lookup);
            root !in cls.fields && root !in cls.properties
            && exists p :: p in cls.properties && cls.properties[p] && root == p + "_id"
                           && !(p in cls.fields && p in cls.managerInputs)
  {
    forall n ensures Root(lookup) == n + "_id" <==> WithoutIdSuffix(Root(lookup)) == Some(n) {
      SuffixMeans(Root(lookup), n);
    }
  }
}
