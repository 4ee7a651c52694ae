/** The three `set_param` functions: grid index to physical parameter value.
    Affine codecs give a number; exponential ones are kept symbolic as
    coef * base^exponent, so no floating-point power is evaluated. */
module Codec {
  import opened Common

  datatype Unit = MilliVolt | MilliSecond | NoUnit

  datatype Value =
    | Linear(v: real, unit: Unit)
    | Power(coef: real, base: nat, exponent: real, unit: Unit)

  /** The `parameters` dict handed to the simulator, restricted to the fitted parameters. */
  type Params = map<Param, Value>

  /** The `protocol_type` / `prot` strings the scripts compare against. */
  datatype Protocol = Letzkus | Brandalise | Brandaliseb | OtherProtocol

  datatype Plasticity = Claire | Clopath

  /** The table name `plasticity + '_veto'` or `plasticity + '_noveto'`, which the scripts
      also pass to `set_param` as the rule. */
  datatype Rule = Rule(plasticity: Plasticity, veto: bool)

  const ClaireNoveto := Rule(Claire, false)
  const ClaireVeto := Rule(Claire, true)

  /** The best-known centre values `cbest` of the offset-from-centre regime. */
  datatype Centres = LetzkusCentres | BrandaliseCentres | BrandalisebCentres | SampleCentres

  function Centre(cs: Centres, p: Param): (c: real)
    ensures c > 0.0
  {
    match cs
    case LetzkusCentres =>
      (match p
      case ALTD => 0.00017497        case ALTP => 0.0000392
      case ThetaLow => 5.19687991    case BTheta => 9991.2109
      case ThetaHigh => 25.7159892   case TauTheta => 26.7646283
      case TauX => 21.8613168        case TauLowpass1 => 70.4876245
      case TauLowpass2 => 2.00056053)
    case BrandaliseCentres =>
      (match p
      case ALTD => 0.099763602       case ALTP => 0.01505758
      case ThetaLow => 2.927871397   case ThetaHigh => 12.12886953
      case BTheta => 942.1754017     case TauTheta => 114.6026989
      case TauLowpass1 => 63.79366   case TauLowpass2 => 2.853035054
      case TauX => 4.990562943)
    case BrandalisebCentres =>
      (match p
      case ALTD => 0.099761303       case ALTP => 0.013652842
      case ThetaLow => 2.636491402   case ThetaHigh => 12.20124861
      case BTheta => 2.114599383     case TauTheta => 75.72422075
      case TauLowpass1 => 74.55801316 case TauLowpass2 => 2.786924509
      case TauX => 5.12639093)
    case SampleCentres =>
      (match p
      case ALTD => 0.0001872         case ALTP => 0.00003933
      case ThetaLow => 4.886         case ThetaHigh => 26.04
      case BTheta => 9999.0          case TauTheta => 32.13
      case TauLowpass1 => 77.17      case TauLowpass2 => 2.001
      case TauX => 20.89)
  }

  /** Absolute regime of the noveto rule: thresholds affine in the index, amplitudes
      10^(index-6), time constants 3^(index-1) ms; the veto parameters are unknown to it. */
  function NovetoValue(p: Param, index: real): Result<Value>
  {
    match p
    case ThetaHigh => Ok(Linear(-5.0 + 5.0 * index, MilliVolt))
    case ThetaLow => Ok(Linear(-5.0 + 5.0 * index, MilliVolt))
    case ALTP => Ok(Power(1.0, 10, index - 6.0, NoUnit))
    case ALTD => Ok(Power(1.0, 10, index - 6.0, NoUnit))
    case TauLowpass1 => Ok(Power(1.0, 3, index - 1.0, MilliSecond))
    case TauLowpass2 => Ok(Power(1.0, 3, index - 1.0, MilliSecond))
    case TauX => Ok(Power(1.0, 3, index - 1.0, MilliSecond))
    case BTheta => Err(ValueError)
    case TauTheta => Err(ValueError)
  }

  /** Offset-from-centre regime of the veto rule: thresholds centre + 8·index mV,
      amplitudes centre·10^index, the other parameters centre·4^index. */
  function VetoValue(cs: Centres, p: Param, index: real): Value
  {
    var c := Centre(cs, p);
    match p
    case ThetaHigh => Linear(c + 8.0 * index, MilliVolt)
    case ThetaLow => Linear(c + 8.0 * index, MilliVolt)
    case ALTP => Power(c, 10, index, NoUnit)
    case ALTD => Power(c, 10, index, NoUnit)
    case BTheta => Power(c, 4, index, NoUnit)
    case _ => Power(c, 4, index, MilliSecond)
  }

  /** The centre table `set_param` of src/gridsearch.py picks for a protocol and rule. */
  function GridCentres(prot: Protocol, rule: Rule): Result<Centres>
  {
    if prot == OtherProtocol then Err(ValueError)
    else if rule == ClaireNoveto then Err(NotImplementedError)
    else if rule != ClaireVeto then Err(ValueError)
    else Ok(match prot
            case Letzkus => LetzkusCentres
            case Brandalise => BrandaliseCentres
            case _ => BrandalisebCentres)
  }

  /** `set_param(pname, index, plas, prot)` of src/gridsearch.py. */
  function GridCodec(p: Param, index: real, rule: Rule, prot: Protocol): Result<Value>
  {
    match GridCentres(prot, rule)
    case Err(e) => Err(e)
    case Ok(cs) =>
      if rule == ClaireNoveto then NovetoValue(p, index) else Ok(VetoValue(cs, p, index))
  }

  /** `set_param(pname, index, granu)` of src/montesearch.py. */
  function MonteCodec(p: Param, index: real, granu: int): Result<Value>
  {
    if granu != 0 then Err(NotImplementedError)
    else Ok(match p
            case ThetaHigh => Linear(-15.0 - 7.0 * index, MilliVolt)
            case ThetaLow => Linear(-15.0 - 7.0 * index, MilliVolt)
            case ALTP => Power(0.001, 10, index, NoUnit)
            case ALTD => Power(0.001, 10, index, NoUnit)
            case TauLowpass1 => Power(1.0, 2, index, MilliSecond)
            case TauLowpass2 => Power(1.0, 2, index, MilliSecond)
            case TauX => Power(1.0, 2, index - 2.0, MilliSecond)
            case BTheta => Power(0.4, 5, index, NoUnit)
            case TauTheta => Power(0.2, 5, index, MilliSecond))
  }

  /** `set_param(pname, index, plas)` of src/samplesearch.py. */
  function SampleCodec(p: Param, index: real, rule: Rule): Result<Value>
  {
    if rule == ClaireNoveto then NovetoValue(p, index)
    else if rule == ClaireVeto then Ok(VetoValue(SampleCentres, p, index))
    else Err(ValueError)
  }

  /** `a` is a strictly smaller physical value than `b`: same unit, and either both affine
      with a smaller number, or both the same positive coefficient times the same base
      above 1 raised to a smaller exponent. */
  predicate Below(a: Value, b: Value)
  {
    a.unit == b.unit &&
    match a
    case Linear(x, _) => b.Linear? && x < b.v
    case Power(c, base, e, _) =>
      b.Power? && c == b.coef && c > 0.0 && base == b.base && base > 1 && e < b.exponent
  }

  /** With the centres of protocol Letzkus the grid-search codec fails for every parameter and
      index unless the rule is Claire_veto; Claire_noveto fails with NotImplementedError. */
  lemma GridCodecAcceptsOnlyVeto(p: Param, index: real, rule: Rule)
    ensures GridCodec(p, index, rule, Letzkus).Ok? <==> rule == ClaireVeto
    ensures rule == ClaireNoveto ==> GridCodec(p, index, rule, Letzkus) == Err(NotImplementedError)
    ensures rule == ClaireVeto ==> GridCodec(p, index, rule, Letzkus) == Ok(VetoValue(LetzkusCentres, p, index))
  {
  }

  /** Every grid-search codec that succeeds is strictly increasing in the index; the
      thresholds are affine with slope 8 mV per index unit. */
  lemma GridCodecMonotone(p: Param, i: real, j: real, rule: Rule, prot: Protocol)
    requires i < j && GridCodec(p, i, rule, prot).Ok?
    ensures GridCodec(p, j, rule, prot).Ok?
    ensures Below(GridCodec(p, i, rule, prot).value, GridCodec(p, j, rule, prot).value)
    ensures p in {ThetaHigh, ThetaLow} ==>
              GridCodec(p, j, rule, prot).value.v - GridCodec(p, i, rule, prot).value.v == 8.0 * (j - i)
  {
  }

  /** In the Monte-Carlo codec thresholds decrease (-7 mV per index unit) and every other
      parameter increases with the index; any granularity but 0 is not implemented. */
  lemma MonteCodecMonotone(p: Param, i: real, j: real)
    requires i < j
    ensures MonteCodec(p, i, 0).Ok? && MonteCodec(p, j, 0).Ok?
    ensures p in {ThetaHigh, ThetaLow} ==> Below(MonteCodec(p, j, 0).value, MonteCodec(p, i, 0).value)
    ensures p !in {ThetaHigh, ThetaLow} ==> Below(MonteCodec(p, i, 0).value, MonteCodec(p, j, 0).value)
    ensures forall g :: g != 0 ==> MonteCodec(p, i, g) == Err(NotImplementedError)
  {
  }

  /** The sample-search codec is strictly increasing wherever it succeeds, and the noveto rule
      does not know the veto parameters `b_theta` and `tau_theta`. */
  lemma SampleCodecMonotone(p: Param, i: real, j: real, rule: Rule)
    requires i < j && SampleCodec(p, i, rule).Ok?
    ensures SampleCodec(p, j, rule).Ok?
    ensures Below(SampleCodec(p, i, rule).value, SampleCodec(p, j, rule).value)
    ensures rule == ClaireNoveto ==> p != BTheta && p != TauTheta
  {
  }
}
