/** The records of src/lib/data.ts: a tariff, the cost of one company, and the simulation result. */
module Data {

  /** `Tariff`: a company's prices per period (€/kWh for energy, €/kW for power) and its monthly fixed term. */
  datatype Tariff = Tariff(
    id: string,
    companyName: string,
    priceKwhP1: real, priceKwhP2: real, priceKwhP3: real,
    priceKwhP4: real, priceKwhP5: real, priceKwhP6: real,
    pricePowerP1: real, pricePowerP2: real, pricePowerP3: real,
    pricePowerP4: real, pricePowerP5: real, pricePowerP6: real,
    surplusCompensationPrice: real,
    fixedTerm: real,
    promo: string)
  {
    /** The six energy prices, P1 first. */
    function EnergyPrices(): (r: seq<real>)
      ensures |r| == 6
      ensures r[0] == priceKwhP1 && r[1] == priceKwhP2 && r[2] == priceKwhP3
      ensures r[3] == priceKwhP4 && r[4] == priceKwhP5 && r[5] == priceKwhP6
    {
      [priceKwhP1, priceKwhP2, priceKwhP3, priceKwhP4, priceKwhP5, priceKwhP6]
    }
  }

  /** `CompanyCost`: the yearly cost of one tariff, and its place in the ranking. */
  datatype CompanyCost = CompanyCost(
    id: string,
    rank: int,
    name: string,
    fixedFee: real,
    consumptionCost: real,
    otherCosts: real,
    totalCost: real)

  datatype BestOption = BestOption(companyName: string, savings: real)

  /** `SimulationResult.summary`: consumption per period, its total, and the cheapest option. */
  datatype Summary = Summary(
    totalKwhP1: real, totalKwhP2: real, totalKwhP3: real,
    totalKwhP4: real, totalKwhP5: real, totalKwhP6: real,
    totalKwh: real,
    period: string,
    bestOption: BestOption)

  datatype SimulationResult = SimulationResult(summary: Summary, details: seq<CompanyCost>)
}
