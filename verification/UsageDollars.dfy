/** The price list in US dollars: counting in ten-millionths of a dollar loses nothing and decides alike. */
module UsageDollars {
  import opened Results
  import opened UsageLedger
  import opened UsageBudget

  /** US dollars for a million tokens read and a million tokens written. */
  datatype Price = Price(input: real, output: real)

  function PriceOf(model: string): Price {
    match model
    case "gpt-5.6-sol" => Price(5.0, 30.0)
    case "gpt-5.6-terra" => Price(2.5, 15.0)
    case "gpt-5.6-luna" => Price(1.0, 6.0)
    case _ => Price(0.1, 0.3)
  }

  function CostInDollars(model: string, prompt: nat, completion: nat): real {
    (prompt as real * PriceOf(model).input + completion as real * PriceOf(model).output) / 1_000_000.0
  }

  function SpendInDollars(report: seq<ModelUsage>): real {
    if report == [] then 0.0
    else
      CostInDollars(report[0].model, report[0].counters.prompt, report[0].counters.completion) + SpendInDollars(report[1..])
  }

  function LimitInDollars(serviceCode: string): Option<real> {
    match serviceCode
    case "athenz" => Some(240.0)
    case "spire" => Some(0.002)
    case _ => None
  }

  lemma CostIsExact(model: string, prompt: nat, completion: nat)
    ensures Cost(model, prompt, completion) as real == 10_000_000.0 * CostInDollars(model, prompt, completion)
  {
  }

  lemma {:induction false} SpendIsExact(report: seq<ModelUsage>)
    ensures Spend(report) as real == 10_000_000.0 * SpendInDollars(report)
  {
    if report != [] {
      var c := report[0].counters;
      SpendIsExact(report[1..]);
      CostIsExact(report[0].model, c.prompt, c.completion);
    }
  }

  /** A service code has a limit in both countings or in neither, and a report has reached it in both or in neither. */
  lemma LimitIsReachedInDollarsIff(report: seq<ModelUsage>, serviceCode: string)
    ensures DailyLimit(serviceCode).Some? <==> LimitInDollars(serviceCode).Some?
    ensures DailyLimit(serviceCode).Some? ==>
              (DailyLimit(serviceCode).value <= Spend(report) <==> LimitInDollars(serviceCode).value <= SpendInDollars(report))
  {
    SpendIsExact(report);
  }
}
