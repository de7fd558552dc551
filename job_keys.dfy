/**
 * Keys and result paths of job records.
 *
 * A job is named by its type and its id; `CreateKey` joins them into the
 * database key "type/id", which is also the job's `resultUrl`. Image slot n
 * (1-based) of a job is published at "type/id/n.png", n written in decimal.
 */
module JobKeys {
  import opened Results

  /** The database key of job `id` of kind `jobType`: the type, a '/', then the id. */
  function CreateKey(jobType: string, id: string): (key: string)
    ensures |key| == |jobType| + 1 + |id|
    ensures key[..|jobType|] == jobType && key[|jobType|] == '/' && key[|jobType| + 1..] == id
  {
    jobType + "/" + id
  }

  predicate IsDigit(c: char)
  {
    '0' <= c <= '9'
  }

  function DigitValue(c: char): (d: nat)
    requires IsDigit(c)
    ensures d < 10
  {
    c as int - '0' as int
  }

  function DigitChar(d: nat): (c: char)
    requires d < 10
    ensures IsDigit(c) && DigitValue(c) == d
  {
    ('0' as int + d) as char
  }

  predicate AllDigits(s: string)
  {
    forall i :: 0 <= i < |s| ==> IsDigit(s[i])
  }

  /**
   * The decimal numeral of `n`, without leading zeros, as a template literal
   * writes a non-negative integer below 1e21.
   */
  function DecimalString(n: nat): (s: string)
    ensures |s| >= 1 && AllDigits(s)
    ensures s[0] == '0' <==> n == 0
    decreases n
  {
    if n < 10 then [DigitChar(n)] else DecimalString(n / 10) + [DigitChar(n % 10)]
  }

  /** The value of a numeral: the inverse of `DecimalString`. */
  function ParseDecimal(s: string): nat
    requires AllDigits(s)
    decreases |s|
  {
    if s == [] then 0 else 10 * ParseDecimal(s[..|s| - 1]) + DigitValue(s[|s| - 1])
  }

  lemma {:induction false} ParseDecimalString(n: nat)
    ensures ParseDecimal(DecimalString(n)) == n
    decreases n
  {
    var s := DecimalString(n);
    if n < 10 {
      assert s[..|s| - 1] == [];
    } else {
      assert s[..|s| - 1] == DecimalString(n / 10);
      ParseDecimalString(n / 10);
    }
  }

  /** Distinct numbers have distinct numerals. */
  lemma DecimalStringInjective(m: nat, n: nat)
    requires DecimalString(m) == DecimalString(n)
    ensures m == n
  {
    ParseDecimalString(m);
    ParseDecimalString(n);
  }

  /** The url of image slot `n` (1-based) of the job stored under `key`. */
  function ImageUrl(key: string, n: nat): (url: string)
    ensures |url| == |key| + |DecimalString(n)| + 5
    ensures url[..|key|] == key && url[|key|] == '/' && url[|url| - 4..] == ".png"
    ensures url[|key| + 1 .. |url| - 4] == DecimalString(n)
  {
    key + "/" + DecimalString(n) + ".png"
  }

  /** Two slots of one job never share a url. */
  lemma ImageUrlInjective(key: string, m: nat, n: nat)
    requires ImageUrl(key, m) == ImageUrl(key, n)
    ensures m == n
  {
    var dm, dn := DecimalString(m), DecimalString(n);
    var u, v := ImageUrl(key, m), ImageUrl(key, n);
    assert |dm| == |dn| by {
      assert |u| == |key| + |dm| + 5;
      assert |v| == |key| + |dn| + 5;
    }
    assert u[|key| + 1 .. |key| + 1 + |dm|] == dm;
    assert v[|key| + 1 .. |key| + 1 + |dn|] == dn;
    DecimalStringInjective(m, n);
  }

  /** The index of the first '/' in `s`, or `|s|` when there is none. */
  function SlashIndex(s: string): (i: nat)
    ensures i <= |s|
    ensures i < |s| ==> s[i] == '/'
    ensures forall j :: 0 <= j < i ==> s[j] != '/'
    decreases |s|
  {
    if s == [] then 0 else if s[0] == '/' then 0 else 1 + SlashIndex(s[1..])
  }

  /** Reads a key back into its type and id, splitting at the first '/'. */
  function SplitKey(key: string): (r: Option<(string, string)>)
    ensures r.None? <==> '/' !in key
    ensures r.Some? ==> '/' !in r.value.0 && CreateKey(r.value.0, r.value.1) == key
  {
    var i := SlashIndex(key);
    if i == |key| then
      None
    else
      assert key == key[..i] + "/" + key[i + 1..];
      Some((key[..i], key[i + 1..]))
  }

  /** A key whose type has no '/' can be read back into its type and id. */
  lemma SplitCreateKey(jobType: string, id: string)
    requires '/' !in jobType
    ensures SplitKey(CreateKey(jobType, id)) == Some((jobType, id))
  {
    var key := CreateKey(jobType, id);
    assert key[|jobType|] == '/';
    assert forall j :: 0 <= j < |jobType| ==> key[j] == jobType[j];
    assert SlashIndex(key) == |jobType|;
    assert key[..|jobType|] == jobType;
    assert key[|jobType| + 1..] == id;
  }

  /** Jobs whose types contain no '/' never share a key. */
  lemma CreateKeyInjective(type1: string, id1: string, type2: string, id2: string)
    requires '/' !in type1 && '/' !in type2
    requires CreateKey(type1, id1) == CreateKey(type2, id2)
    ensures type1 == type2 && id1 == id2
  {
    SplitCreateKey(type1, id1);
    SplitCreateKey(type2, id2);
  }

  /** Without that restriction two different jobs can share one key. */
  lemma CreateKeyCollision()
    ensures CreateKey("a/b", "c") == CreateKey("a", "b/c")
  {
  }
}
