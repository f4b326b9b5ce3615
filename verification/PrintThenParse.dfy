// The printer and the parser of cjson.c, one after the other, on trees of items.
module PrintThenParse {
  import opened Json
  import opened Items
  import opened Trees
  import opened PrintBuffer
  import JsonGrammar
  import RoundTrip
  import TreeParser
  import TreePrinter

  // Printing with one program and parsing with the other, whatever the print mode and the way
  // the print buffer grows, gives a new tree that stands for the same value.
  method Copy(item: Item, format: bool, hasRealloc: bool) returns (copy: Item?)
    requires Tree(item) && ExactNumbers(item.model) && Nesting(item.model) <= NESTING_LIMIT
    requires |Text(item.model, format, 0)| + 2 <= SIZE_MAX
    ensures copy != null && fresh(copy.nodes) && Tree(copy) && copy.model == item.model
  {
    hide Tree, Text, Nesting, ExactNumbers, JsonGrammar.ParseText;
    var ok, printed := TreePrinter.Print(item, format, hasRealloc);
    RoundTrip.RoundTrips(item.model, format, false);
    var end;
    copy, end := TreeParser.ParseWithLengthOpts(printed[..], false);
  }
}
