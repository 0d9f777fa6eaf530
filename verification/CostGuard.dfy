/** Budget enforcement: spend per provider and in total, checked against caps before a request. */
module CostGuard {
  import opened Sums

  datatype Caps = Caps(globalCap: real, reserve: real, providerCaps: map<string, real>) {
    function EffectiveGlobalCap(): real {
      globalCap - reserve
    }
  }

  datatype Ledger = Ledger(providerSpend: map<string, real>, globalSpend: real)

  const EMPTY_LEDGER := Ledger(map[], 0.0)

  function SpendOf(spend: map<string, real>, provider: string): real {
    if provider in spend then spend[provider] else 0.0
  }

  datatype Check = Admitted | ProviderCapExceeded | GlobalCapExceeded

  /** A provider without a cap of its own is only held by the global one. */
  function CheckProvider(caps: Caps, l: Ledger, provider: string, estimate: real): Check {
    if provider in caps.providerCaps
       && SpendOf(l.providerSpend, provider) + estimate > caps.providerCaps[provider]
    then ProviderCapExceeded
    else if l.globalSpend + estimate > caps.EffectiveGlobalCap() then GlobalCapExceeded
    else Admitted
  }

  function RecordSpend(l: Ledger, provider: string, actual: real): Ledger {
    Ledger(l.providerSpend[provider := SpendOf(l.providerSpend, provider) + actual], l.globalSpend + actual)
  }

  /** The sum over all providers. */
  ghost function TotalOf(spend: map<string, real>): real {
    MapSum(Identity(), spend)
  }

  ghost predicate Balanced(l: Ledger) {
    TotalOf(l.providerSpend) == l.globalSpend
  }

  /** The global spend is always the sum of what the providers were charged. */
  lemma RecordKeepsBalance(l: Ledger, provider: string, actual: real)
    requires Balanced(l)
    ensures Balanced(RecordSpend(l, provider, actual))
  {
    MapSumUpdated(Identity(), l.providerSpend, provider, SpendOf(l.providerSpend, provider) + actual);
  }

  class CostGuard {
    const caps: Caps
    var providerSpend: map<string, real>
    var globalSpend: real

    function State(): Ledger
      reads this
    {
      Ledger(providerSpend, globalSpend)
    }

    ghost predicate Valid()
      reads this
    {
      Balanced(State())
    }

    constructor (caps: Caps)
      ensures Valid() && this.caps == caps && State() == EMPTY_LEDGER
    {
      this.caps := caps;
      providerSpend, globalSpend := map[], 0.0;
    }

    method Check(provider: string, estimate: real) returns (check: Check)
      requires Valid()
      ensures check == CheckProvider(caps, State(), provider, estimate)
      ensures check.ProviderCapExceeded? <==>
                provider in caps.providerCaps
                && (if provider in providerSpend then providerSpend[provider] else 0.0) + estimate
                   > caps.providerCaps[provider]
      ensures !check.ProviderCapExceeded? ==>
                (check.GlobalCapExceeded? <==> globalSpend + estimate > caps.globalCap - caps.reserve)
    {
      var current := SpendOf(providerSpend, provider);
      if provider in caps.providerCaps && current + estimate > caps.providerCaps[provider] {
        return ProviderCapExceeded;
      }
      if globalSpend + estimate > caps.EffectiveGlobalCap() {
        return GlobalCapExceeded;
      }
      return Admitted;
    }

    method Record(provider: string, actual: real)
      requires Valid()
      modifies this
      ensures Valid() && State() == RecordSpend(old(State()), provider, actual)
      ensures globalSpend == old(globalSpend) + actual
      ensures forall p :: SpendOf(providerSpend, p)
                          == old(SpendOf(providerSpend, p)) + if p == provider then actual else 0.0
    {
      RecordKeepsBalance(State(), provider, actual);
      providerSpend := providerSpend[provider := SpendOf(providerSpend, provider) + actual];
      globalSpend := globalSpend + actual;
    }
  }
}
