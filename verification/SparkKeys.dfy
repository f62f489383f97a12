/** The property keys that carry Spark metadata never collide. */
module SparkKeys {
  import opened Arrow
  import opened Text
  import opened LargeProperty
  import opened HmsTable

  /** Which of the key families a Spark property key belongs to, read off its characters. */
  function Family(k: string): nat {
    if |k| <= 18 then 4
    else if k[10] == 'c' then 3
    else if k[18] == 'p' then 2
    else if |k| <= 29 then 0
    else if k[25] == 'p' then if k[29] == '.' then 0 else 1
    else if |k| > 32 && k[32] == 'C' then 1
    else 0
  }

  predicate AllOf(pairs: seq<(string, string)>, family: nat) {
    forall i :: 0 <= i < |pairs| ==> Family(pairs[i].0) == family && StartsWith(pairs[i].0, "spark.sql.")
  }

  lemma PartKeyFamily(i: nat)
    ensures Family(PartKey(SCHEMA_KEY, i)) == 0 && StartsWith(PartKey(SCHEMA_KEY, i), "spark.sql.")
  {
    var k, prefix := PartKey(SCHEMA_KEY, i), "spark.sql.sources.schema.part.";
    assert SCHEMA_KEY + ".part." == prefix;
    assert forall j :: 0 <= j < |prefix| ==> k[j] == prefix[j];
    assert k[10] == prefix[10] && k[18] == prefix[18] && k[25] == prefix[25] && k[29] == prefix[29];
  }

  lemma PartColKeyFamily(i: nat)
    ensures Family(PartColKey(i)) == 1 && StartsWith(PartColKey(i), "spark.sql.")
  {
    var k, prefix := PartColKey(i), "spark.sql.sources.schema.partCol.";
    assert forall j :: 0 <= j < |prefix| ==> k[j] == prefix[j];
    assert k[10] == prefix[10] && k[18] == prefix[18] && k[25] == prefix[25] && k[29] == prefix[29];
  }

  lemma CountKeyFamilies()
    ensures Family(NumPartsKey(SCHEMA_KEY)) == 0 && StartsWith(NumPartsKey(SCHEMA_KEY), "spark.sql.")
    ensures Family(NUM_PART_COLS_KEY) == 1 && StartsWith(NUM_PART_COLS_KEY, "spark.sql.")
  {
    assert NumPartsKey(SCHEMA_KEY) == "spark.sql.sources.schema.numParts";
  }

  lemma FixedKeyFamilies()
    ensures Family(SCHEMA_KEY) == 0 && StartsWith(SCHEMA_KEY, "spark.sql.")
    ensures Family(PROVIDER_KEY) == 2 && StartsWith(PROVIDER_KEY, "spark.sql.")
    ensures Family(VERSION_KEY) == 3 && StartsWith(VERSION_KEY, "spark.sql.")
  {
  }

  lemma SchemaPairsFamily(text: string)
    ensures AllOf(SplitPairs(SCHEMA_KEY, text, CHUNK_SIZE), 0)
  {
    var pairs := SplitPairs(SCHEMA_KEY, text, CHUNK_SIZE);
    FixedKeyFamilies();
    CountKeyFamilies();
    forall i | 0 <= i < |pairs|
      ensures Family(pairs[i].0) == 0 && StartsWith(pairs[i].0, "spark.sql.")
    {
      if i > 0 {
        PartKeyFamily(i - 1);
      }
    }
  }

  /** The partition column properties, which are present only for a partitioned table. */
  function PartitionPairs(partitionColumns: seq<string>): seq<(string, string)> {
    if partitionColumns == [] then []
    else [(NUM_PART_COLS_KEY, NatToString(|partitionColumns|))] + PartColPairs(partitionColumns)
  }

  lemma PartitionPairsFamily(partitionColumns: seq<string>)
    ensures AllOf(PartitionPairs(partitionColumns), 1)
  {
    var pairs := PartitionPairs(partitionColumns);
    CountKeyFamilies();
    forall i | 0 <= i < |pairs|
      ensures Family(pairs[i].0) == 1 && StartsWith(pairs[i].0, "spark.sql.")
    {
      if i > 0 {
        PartColKeyFamily(i - 1);
      }
    }
  }

  lemma PartColKeysDiffer(i: nat, j: nat)
    requires PartColKey(i) == PartColKey(j)
    ensures i == j
  {
    var n := |"spark.sql.sources.schema.partCol."|;
    assert PartColKey(i)[n..] == NatToString(i) && PartColKey(j)[n..] == NatToString(j);
    NatToStringInjective(i, j);
  }

  lemma PartitionPairsDistinct(partitionColumns: seq<string>)
    ensures DistinctKeys(PartitionPairs(partitionColumns))
  {
    var pairs := PartitionPairs(partitionColumns);
    forall i, j | 0 <= i < j < |pairs|
      ensures pairs[i].0 != pairs[j].0
    {
      assert pairs[j].0 == PartColKey(j - 1);
      if i == 0 {
        assert PartColKey(j - 1)[25] == 'p' && NUM_PART_COLS_KEY[25] == 'n';
      } else {
        assert pairs[i].0 == PartColKey(i - 1);
        if pairs[i].0 == pairs[j].0 {
          PartColKeysDiffer(i - 1, j - 1);
        }
      }
    }
  }

  lemma {:induction false} DistinctConcat(a: seq<(string, string)>, b: seq<(string, string)>)
    requires DistinctKeys(a) && DistinctKeys(b)
    requires forall i, j :: 0 <= i < |a| && 0 <= j < |b| ==> Family(a[i].0) != Family(b[j].0)
    ensures DistinctKeys(a + b)
  {
    forall i, j | 0 <= i < j < |a + b|
      ensures (a + b)[i].0 != (a + b)[j].0
    {
      if i < |a| <= j {
        assert Family(a[i].0) != Family(b[j - |a|].0);
      }
    }
  }

  lemma SparkPairsParts(text: string, partitionColumns: seq<string>, format: string, version: string)
    ensures SparkPairs(text, partitionColumns, format, version) ==
            SplitPairs(SCHEMA_KEY, text, CHUNK_SIZE) + PartitionPairs(partitionColumns)
            + [(PROVIDER_KEY, format), (VERSION_KEY, "zelox-" + version)]
  {
  }

  /** The part, numParts, partCol, numPartCols, provider and version keys never collide. */
  lemma SparkPairsDistinct(text: string, partitionColumns: seq<string>, format: string, version: string)
    ensures DistinctKeys(SparkPairs(text, partitionColumns, format, version))
  {
    var a, b := SplitPairs(SCHEMA_KEY, text, CHUNK_SIZE), PartitionPairs(partitionColumns);
    var c := [(PROVIDER_KEY, format), (VERSION_KEY, "zelox-" + version)];
    SplitPairsDistinct(SCHEMA_KEY, text, CHUNK_SIZE);
    PartitionPairsDistinct(partitionColumns);
    SchemaPairsFamily(text);
    PartitionPairsFamily(partitionColumns);
    FixedKeyFamilies();
    DistinctConcat(a, b);
    DistinctConcat(a + b, c);
    SparkPairsParts(text, partitionColumns, format, version);
  }

  /** Every inserted key is reserved, so it is none of the user's. */
  lemma SparkPairsReserved(text: string, partitionColumns: seq<string>, format: string, version: string, key: string)
    requires HasKey(SparkPairs(text, partitionColumns, format, version), key)
    ensures IsReserved(key) && StartsWith(key, "spark.sql.")
  {
    SchemaPairsFamily(text);
    PartitionPairsFamily(partitionColumns);
    FixedKeyFamilies();
    SparkPairsParts(text, partitionColumns, format, version);
  }

  /** A chunked schema is not stored under the unchunked key. */
  lemma SchemaKeyAbsent(text: string, partitionColumns: seq<string>, format: string, version: string)
    requires |text| > CHUNK_SIZE
    ensures !HasKey(SparkPairs(text, partitionColumns, format, version), SCHEMA_KEY)
  {
    var pairs := SparkPairs(text, partitionColumns, format, version);
    SparkPairsParts(text, partitionColumns, format, version);
    PartitionPairsFamily(partitionColumns);
    FixedKeyFamilies();
    forall i | 0 <= i < |pairs|
      ensures pairs[i].0 != SCHEMA_KEY
    {
      var n := |SplitPairs(SCHEMA_KEY, text, CHUNK_SIZE)|;
      if 0 < i < n {
        assert |pairs[i].0| > |SCHEMA_KEY|;
      } else if n <= i < n + |PartitionPairs(partitionColumns)| {
        assert pairs[i] == PartitionPairs(partitionColumns)[i - n];
      }
    }
  }
}
