/**
 * The registry logic of the menu actions in Functions.py, with the prompts
 * taken away: the address typed by the user and the HERE/TEXT choice arrive
 * as parameters, and what the action prints is returned as its lines.
 */
module Menu {
  import opened Wrappers
  import opened HouseLayout
  import opened Houses

  const NotFoundForAddress := "House not found for this address."
  const NotFound := "House not found."
  const FileCreated := "A file with the data has been created in this directory."
  const InvalidChoice := "Invalid input."

  /** The answer to "Write HERE or TEXT", after `upper()`. */
  datatype Destination = Here | Text | Other

  /** delete_house: removes the address when it is registered and says so;
      otherwise reports that no house was found and changes nothing. */
  method DeleteHouse<N>(registry: Registry<N>, address: string) returns (out: seq<string>)
    requires registry.Valid()
    modifies registry
    ensures registry.Valid()
    ensures address in old(registry.instances) ==>
      && out == ["House at " + address + " has been deleted."]
      && registry.instances == old(registry.instances) - {address}
      && registry.order == Without(old(registry.order), address)
    ensures address !in old(registry.instances) ==>
      && out == [NotFound]
      && registry.instances == old(registry.instances)
      && registry.order == old(registry.order)
  {
    var found := registry.Delete(address);
    if found {
      out := ["House at " + address + " has been deleted."];
    } else {
      out := [NotFound];
    }
  }

  /** print_house_info (the menu action): with HERE the house's lines are
      printed; with TEXT its file is written and a confirmation printed;
      an unregistered address only prints that no house was found; any other
      choice prints "Invalid input." and looks nothing up. The file written,
      if any, comes back as its name and text. */
  method ShowHouseInfo<N>(registry: Registry<N>, dest: Destination, address: string, render: N -> string)
    returns (out: seq<string>, file: Option<(string, string)>)
    requires registry.Valid()
    ensures dest == Here && address in registry.instances ==>
      && out == InfoLines(registry.instances[address].Rendering(render), ScreenAgeLabel)
      && file == None
    ensures dest == Text && address in registry.instances ==>
      && out == [FileCreated]
      && file == Some((FileName(address),
                       Terminated(InfoLines(registry.instances[address].Rendering(render), FileAgeLabel))))
    ensures dest != Other && address !in registry.instances ==> out == [NotFoundForAddress] && file == None
    ensures dest == Other ==> out == [InvalidChoice] && file == None
    ensures file.Some? <==> dest == Text && address in registry.instances
  {
    file := None;
    if dest == Here {
      var house := registry.Get(address);
      if house.Some? {
        out := house.value.PrintHouseInfo(render);
      } else {
        out := [NotFoundForAddress];
      }
    } else if dest == Text {
      var house := registry.Get(address);
      if house.Some? {
        var name, content := house.value.WriteHouseInfoToFile(render);
        file := Some((name, content));
        out := [FileCreated];
      } else {
        out := [NotFoundForAddress];
      }
    } else {
      out := [InvalidChoice];
    }
  }

  /** estimate_price: a registered house gets the predicted price recorded
      and nothing is printed; an unregistered address prints that no house
      was found and changes nothing. The prediction itself is a parameter. */
  method EstimatePrice<N>(registry: Registry<N>, address: string, predicted: N) returns (out: seq<string>)
    requires registry.Valid()
    modifies if address in registry.instances then {registry.instances[address]} else {}
    ensures registry.Valid()
    ensures address in registry.instances ==> registry.instances[address].housePrice == Some(predicted) && out == []
    ensures address !in registry.instances ==> out == [NotFoundForAddress]
  {
    var house := registry.Get(address);
    if house.Some? {
      house.value.RecordPrice(predicted);
      out := [];
    } else {
      out := [NotFoundForAddress];
    }
  }
}
