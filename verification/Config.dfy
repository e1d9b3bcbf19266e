/** Configuration values and the range checks of the loader. */
module Config {
  import opened Domain

  datatype StrategyConfig = StrategyConfig(
    minEdgeBps: int,
    minProbability: real,
    maxProbability: real,
    maxSignalAgeSeconds: int,
    priceImprovementCents: int,
    orderStyle: Style,
    exitEdgeBps: int)

  datatype RiskConfig = RiskConfig(
    maxContractsPerOrder: int,
    maxOrderNotionalCents: int,
    maxMarketExposureCents: int,
    maxTotalExposureCents: int,
    maxDailyLossCents: int,
    maxOpenOrders: int,
    maxSpreadCents: int,
    minTopLevelContracts: int,
    minBalanceCents: int,
    cooldownSeconds: int)

  datatype FeeConfig = FeeConfig(takerRate: real, makerRate: real) {
    function RateFor(style: Style): real {
      if style.Maker? then makerRate else takerRate
    }
  }

  datatype PaperConfig = PaperConfig(startingBalanceCents: int, slippageCents: int)

  datatype SizingConfig = SizingConfig(
    kellyFraction: real,
    maxBankrollFraction: real,
    minAnnualizedReturn: real,
    defaultDaysToResolution: real)
  {
    predicate Valid() {
      && 0.0 < kellyFraction <= 1.0
      && 0.0 < maxBankrollFraction <= 1.0
      && minAnnualizedReturn >= 0.0
      && defaultDaysToResolution > 0.0
    }
  }

  datatype AppConfig = AppConfig(
    strategy: StrategyConfig,
    risk: RiskConfig,
    fees: FeeConfig,
    paper: PaperConfig,
    sizing: SizingConfig)
  {
    /** What load_config checks of these sections. */
    predicate Valid() {
      && strategy.minEdgeBps > 0
      && strategy.maxSignalAgeSeconds > 0
      && strategy.priceImprovementCents >= 0
      && strategy.exitEdgeBps >= 0
      && 0.0 < strategy.minProbability < strategy.maxProbability < 1.0
      && risk.maxContractsPerOrder > 0
      && 0 < risk.maxOrderNotionalCents <= risk.maxMarketExposureCents <= risk.maxTotalExposureCents
      && risk.maxDailyLossCents > 0
      && risk.maxOpenOrders > 0
      && risk.maxSpreadCents >= 0
      && risk.minTopLevelContracts >= 0
      && risk.minBalanceCents > 0
      && risk.cooldownSeconds >= 0
      && paper.startingBalanceCents > 0
      && paper.slippageCents >= 0
      && 0.0 <= fees.takerRate < 1.0
      && 0.0 <= fees.makerRate < 1.0
      && sizing.Valid()
    }
  }
}
