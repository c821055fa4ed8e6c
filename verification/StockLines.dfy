/** Order lines and what moving them does to the material stock. */
module StockLines {
  import opened Sums

  type MaterialId = nat
  type Stock = map<MaterialId, int>

  datatype Line = Line(material: MaterialId, quantity: int)

  ghost function OfMaterial(m: MaterialId): Line -> int {
    (line: Line) => if line.material == m then line.quantity else 0
  }

  /** How much of material `m` the lines hold together. */
  ghost function QuantityOf(lines: seq<Line>, m: MaterialId): int {
    Sum(OfMaterial(m), lines)
  }

  /** One UPDATE of one material row; an unknown material changes no row. */
  function Adjusted(stock: Stock, line: Line, restore: bool): (after: Stock)
    ensures after.Keys == stock.Keys
    ensures forall m :: m in stock ==>
      after[m] == stock[m] + (if restore then OfMaterial(m)(line) else -OfMaterial(m)(line))
  {
    if line.material in stock then
      stock[line.material := if restore then stock[line.material] + line.quantity
                             else stock[line.material] - line.quantity]
    else
      stock
  }

  /** `after` is `stock` with all the lines taken out, or put back. */
  ghost predicate IsMoved(stock: Stock, lines: seq<Line>, restore: bool, after: Stock) {
    && after.Keys == stock.Keys
    && forall m :: m in stock ==>
         after[m] == stock[m] + (if restore then QuantityOf(lines, m) else -QuantityOf(lines, m))
  }

  lemma MoveOneMore(stock: Stock, lines: seq<Line>, line: Line, restore: bool, after: Stock)
    requires IsMoved(stock, lines, restore, after)
    ensures IsMoved(stock, lines + [line], restore, Adjusted(after, line, restore))
  {
    forall m | m in stock
      ensures QuantityOf(lines + [line], m) == QuantityOf(lines, m) + OfMaterial(m)(line)
    {
      SumAppend(OfMaterial(m), lines, line);
    }
  }
}
