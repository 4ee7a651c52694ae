/** Shared vocabulary of the parameter-search scripts: the exceptions they raise,
    the nine plasticity parameters, grid configurations in fixed-point ticks,
    and the sentinel scores written to the result tables. */
module Common {

  datatype Option<T> = None | Some(value: T)

  /** The Python exception classes the scripts raise or run into. */
  datatype Error =
    | ValueError          // unknown protocol, rule, parameter name or job id
    | NotImplementedError // a rule/granularity combination with no grid or no codec
    | KeyError            // a dict lookup of a missing key
    | TypeError           // subscripting None after a lookup that found no row
    | IndexError          // a list position out of range
    | EnvironmentError    // an upstream database file is missing

  datatype Result<T> = Ok(value: T) | Err(error: Error)

  /** The parameters of the Claire plasticity rule the searches fit. */
  datatype Param =
    | ThetaHigh | ThetaLow | ALTP | ALTD | TauLowpass1 | TauLowpass2 | TauX | BTheta | TauTheta

  /** The seven columns every result table has, in the order of the `find_one` calls. */
  const NovetoColumns: seq<Param> := [ThetaHigh, ThetaLow, ALTP, ALTD, TauLowpass1, TauLowpass2, TauX]

  /** The nine columns of the veto variant: the seven plus `bt` and `tt`. */
  const VetoColumns: seq<Param> := NovetoColumns + [BTheta, TauTheta]

  /** Columns a table lookup or insert reads, depending on the veto flag. */
  function Columns(veto: bool): (cols: seq<Param>)
    ensures |cols| == if veto then 9 else 7
    ensures forall i, j :: 0 <= i < j < |cols| ==> cols[i] != cols[j]
  {
    if veto then VetoColumns else NovetoColumns
  }

  /** A configuration: the grid index of each parameter, as an integer number of
      ticks of 0.5^res, where res is the granularity of the run. */
  type Config = map<Param, int>

  /** True when a dict has every key a statement reads; otherwise Python raises KeyError. */
  predicate HasAll<V>(m: map<Param, V>, cols: seq<Param>)
  {
    forall c :: c in cols ==> c in m
  }

  /** The entries of `m` at `cols`: what an insert of those columns stores. */
  function Restrict<V>(m: map<Param, V>, cols: seq<Param>): (r: map<Param, V>)
    requires HasAll(m, cols)
    ensures r.Keys == set c | c in cols
    ensures forall c :: c in cols ==> r[c] == m[c]
  {
    map c | c in cols :: m[c]
  }

  /** `find_one(th=..., ...)`: a stored key agrees with the queried indexes on every queried column. */
  predicate Matches(key: Config, idxs: Config, cols: seq<Param>)
  {
    forall c :: c in cols ==> c in key && c in idxs && key[c] == idxs[c]
  }

  /** The "unfinished" score 9999999999999999 every table uses for a pending row. */
  const Sentinel: real := 9999999999999999.0

  /** Python's sys.maxsize on a 64-bit build: the Monte-Carlo "worse than anything" score. */
  const MaxSize: real := 9223372036854775807.0

  function Pow2(n: nat): (r: nat)
    ensures r >= 1
  {
    if n == 0 then 1 else 2 * Pow2(n - 1)
  }

  /** The Python index value a tick count stands for: t * 0.5^res. */
  function TickValue(t: int, res: nat): real
  {
    t as real / Pow2(res) as real
  }

  lemma TickValueStrictlyIncreasing(s: int, t: int, res: nat)
    requires s < t
    ensures TickValue(s, res) < TickValue(t, res)
  {
    var d := Pow2(res) as real;
    assert s as real < t as real;
    assert s as real / d < t as real / d;
  }

  /** Sequence-level helpers used by several modules. */
  predicate Distinct<T(==)>(s: seq<T>)
  {
    forall i, j :: 0 <= i < j < |s| ==> s[i] != s[j]
  }
}
