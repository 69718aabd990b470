/**
 * The House class of Classes.py and its class-wide `instances` dict, kept
 * here as an explicit Registry object. A Python dict iterates in insertion
 * order, so the registry keeps its keys in that order beside the map:
 * storing under an existing key keeps the key's place, deleting a key
 * removes it from its place.
 */
module Houses {
  import opened Wrappers
  import opened HouseLayout

  /** One house. Its eight attributes never change after construction; its
      price is None until a prediction is recorded. */
  class House<N> {
    const address: string
    const longitude: N
    const latitude: N
    const houseAge: N
    const rooms: N
    const bedrooms: N
    const numberOfPeople: N
    const monthlyIncomeInKUsd: N
    var housePrice: Option<N>

    /** House.__init__ without the registry update (Registry.NewHouse does both). */
    constructor(address: string, longitude: N, latitude: N, houseAge: N, rooms: N, bedrooms: N,
                numberOfPeople: N, monthlyIncomeInKUsd: N)
      ensures this.address == address && this.longitude == longitude && this.latitude == latitude
      ensures this.houseAge == houseAge && this.rooms == rooms && this.bedrooms == bedrooms
      ensures this.numberOfPeople == numberOfPeople && this.monthlyIncomeInKUsd == monthlyIncomeInKUsd
      ensures housePrice == None
    {
      this.address := address;
      this.longitude := longitude;
      this.latitude := latitude;
      this.houseAge := houseAge;
      this.rooms := rooms;
      this.bedrooms := bedrooms;
      this.numberOfPeople := numberOfPeople;
      this.monthlyIncomeInKUsd := monthlyIncomeInKUsd;
      this.housePrice := None;
    }

    /** The house's attributes as the f-strings show them, given how a
        number is turned into text. */
    function Rendering(render: N -> string): Rendered
      reads this
    {
      Rendered(address, render(longitude), render(latitude), render(houseAge), render(rooms),
               render(bedrooms), render(numberOfPeople), render(monthlyIncomeInKUsd),
               match housePrice case Some(p) => Some(render(p)) case None => None)
    }

    /** The assignment `self.house_price = predicted_value[0]` that ends a
        price prediction; the prediction itself is made elsewhere. */
    method RecordPrice(price: N)
      modifies this
      ensures housePrice == Some(price)
    {
      housePrice := Some(price);
    }

    /** print_house_info: the lines it prints, one print() call at a time. */
    method PrintHouseInfo(render: N -> string) returns (out: seq<string>)
      ensures out == InfoLines(Rendering(render), ScreenAgeLabel)
    {
      out := [Header];
      out := out + ["Address: " + address];
      out := out + ["Longitude: " + render(longitude)];
      out := out + ["Latitude: " + render(latitude)];
      out := out + [ScreenAgeLabel + render(houseAge)];
      out := out + ["Rooms: " + render(rooms)];
      out := out + ["Bedrooms: " + render(bedrooms)];
      out := out + ["Number of People: " + render(numberOfPeople)];
      out := out + ["Monthly Income (in k USD): " + render(monthlyIncomeInKUsd)];
      if housePrice.Some? {
        out := out + [PriceLabel + render(housePrice.value)];
      }
    }

    /** write_house_info_to_file: the name of the file and the text written
        to it, one file.write() call at a time. */
    method WriteHouseInfoToFile(render: N -> string) returns (name: string, content: string)
      ensures name == FileName(address)
      ensures content == Terminated(InfoLines(Rendering(render), FileAgeLabel))
    {
      name := FileName(address);
      ghost var lines := InfoLines(Rendering(render), FileAgeLabel);
      content := "";
      assert lines[..0] == [];
      content := WriteLine(content, lines, 0, Header);
      content := WriteLine(content, lines, 1, "Address: " + address);
      content := WriteLine(content, lines, 2, "Longitude: " + render(longitude));
      content := WriteLine(content, lines, 3, "Latitude: " + render(latitude));
      content := WriteLine(content, lines, 4, FileAgeLabel + render(houseAge));
      content := WriteLine(content, lines, 5, "Rooms: " + render(rooms));
      content := WriteLine(content, lines, 6, "Bedrooms: " + render(bedrooms));
      content := WriteLine(content, lines, 7, "Number of People: " + render(numberOfPeople));
      content := WriteLine(content, lines, 8, "Monthly Income (in k USD): " + render(monthlyIncomeInKUsd));
      if housePrice.Some? {
        content := WriteLine(content, lines, 9, PriceLabel + render(housePrice.value));
      }
      assert lines[..|lines|] == lines;
    }
  }

  /** file.write(line + "\n") for the k-th of the `lines` to be written:
      the text grows by the line and its newline. */
  method WriteLine(content: string, ghost lines: seq<string>, ghost k: nat, line: string) returns (content': string)
    requires k < |lines| && lines[k] == line && content == Terminated(lines[..k])
    ensures content' == content + line + "\n"
    ensures content' == Terminated(lines[..k + 1])
  {
    content' := content + line + "\n";
    assert lines[..k + 1] == lines[..k] + [line];
    TerminatedAppend(lines[..k], [line]);
    assert Terminated([line]) == line + "\n" + Terminated([]);
  }

  /** No key appears twice. */
  ghost predicate Distinct(s: seq<string>) {
    forall a, b :: 0 <= a < b < |s| ==> s[a] != s[b]
  }

  /** `s` without `x`, the others in their order. */
  function Without(s: seq<string>, x: string): (r: seq<string>)
    ensures forall y :: y in r <==> y in s && y != x
    ensures Distinct(s) ==> Distinct(r)
  {
    if s == [] then []
    else
      var rest := Without(s[1..], x);
      assert Distinct(s) ==> s[0] !in s[1..] && Distinct(s[1..]);
      if s[0] == x then rest else [s[0]] + rest
  }

  /** Removing a key from two stretches of keys one after the other is
      removing it from each: the remaining keys keep their relative order. */
  lemma {:induction false} WithoutAppend(a: seq<string>, b: seq<string>, x: string)
    ensures Without(a + b, x) == Without(a, x) + Without(b, x)
  {
    if a == [] {
      assert a + b == b;
    } else {
      assert (a + b)[0] == a[0];
      assert (a + b)[1..] == a[1..] + b;
      WithoutAppend(a[1..], b, x);
    }
  }

  /** Deleting a key that occurs once takes it out of its place: the keys
      before it and the keys after it close up around the gap. */
  lemma {:induction false} WithoutInPlace(a: seq<string>, x: string, b: seq<string>)
    requires x !in a && x !in b
    ensures Without(a + [x] + b, x) == a + b
  {
    if a == [] {
      assert a + [x] + b == [x] + b;
      assert ([x] + b)[1..] == b;
      WithoutAbsent(b, x);
    } else {
      assert (a + [x] + b)[0] == a[0];
      assert (a + [x] + b)[1..] == a[1..] + [x] + b;
      WithoutInPlace(a[1..], x, b);
      assert a + b == [a[0]] + (a[1..] + b);
    }
  }

  /** A sequence of distinct keys has as many entries as the set it lists. */
  lemma {:induction false} DistinctCount(s: seq<string>, keys: set<string>)
    requires Distinct(s) && forall y :: y in keys <==> y in s
    ensures |keys| == |s|
  {
    if s != [] {
      assert forall y :: y in s[1..] ==> y in s;
      assert s[0] !in s[1..];
      DistinctCount(s[1..], keys - {s[0]});
    }
  }

  /** House.instances: every house by its address, and the addresses in
      the order the dict iterates them. */
  class Registry<N> {
    var instances: map<string, House<N>>
    var order: seq<string>

    ghost predicate Valid()
      reads this
    {
      && (forall k :: 0 <= k < |order| ==> order[k] in instances)
      && (forall a :: a in instances ==> a in order)
      && Distinct(order)
      && (forall a :: a in instances ==> instances[a].address == a)
    }

    /** `instances = {}`. */
    constructor()
      ensures Valid() && instances == map[] && order == []
    {
      instances := map[];
      order := [];
    }

    /** House(...): a fresh house with the given attributes and no price,
        stored under its address, replacing any earlier house there. */
    method NewHouse(address: string, longitude: N, latitude: N, houseAge: N, rooms: N, bedrooms: N,
                    numberOfPeople: N, monthlyIncomeInKUsd: N) returns (h: House<N>)
      requires Valid()
      modifies this
      ensures Valid() && fresh(h)
      ensures h.address == address && h.longitude == longitude && h.latitude == latitude
      ensures h.houseAge == houseAge && h.rooms == rooms && h.bedrooms == bedrooms
      ensures h.numberOfPeople == numberOfPeople && h.monthlyIncomeInKUsd == monthlyIncomeInKUsd
      ensures h.housePrice == None
      ensures instances == old(instances)[address := h]
      ensures order == if address in old(instances) then old(order) else old(order) + [address]
    {
      h := new House(address, longitude, latitude, houseAge, rooms, bedrooms, numberOfPeople,
                     monthlyIncomeInKUsd);
      if address !in instances {
        order := order + [address];
      }
      instances := instances[address := h];
    }

    /** House.instances.get(address). */
    method Get(address: string) returns (h: Option<House<N>>)
      requires Valid()
      ensures h.Some? <==> address in instances
      ensures h.Some? ==> h.value == instances[address] && h.value.address == address
    {
      if address in instances {
        h := Some(instances[address]);
      } else {
        h := None;
      }
    }

    /** `del House.instances[address]` when the address is present; nothing
        otherwise. Reports whether it was present. */
    method Delete(address: string) returns (found: bool)
      requires Valid()
      modifies this
      ensures Valid()
      ensures found <==> address in old(instances)
      ensures instances == old(instances) - {address}
      ensures order == Without(old(order), address)
      ensures !found ==> instances == old(instances) && order == old(order)
    {
      found := address in instances;
      if found {
        instances := instances - {address};
        order := Without(order, address);
        forall k | 0 <= k < |order| ensures order[k] in instances {
          assert order[k] in order;
        }
      } else {
        WithoutAbsent(order, address);
      }
    }

    /** print_all_addresses: a header, then every stored address once, in
        the dict's order. */
    method PrintAllAddresses() returns (out: seq<string>)
      requires Valid()
      ensures out == ["Addresses of all houses:"] + order
      ensures |out| == |instances| + 1
      ensures forall a :: a in instances <==> a in out[1..]
    {
      out := ["Addresses of all houses:"];
      var i := 0;
      while i < |order|
        invariant 0 <= i <= |order|
        invariant out == ["Addresses of all houses:"] + order[..i]
      {
        out := out + [order[i]];
        i := i + 1;
      }
      assert order[..i] == order;
      DistinctCount(order, instances.Keys);
    }
  }

  /** Removing a key that is not there changes nothing. */
  lemma {:induction false} WithoutAbsent(s: seq<string>, x: string)
    requires x !in s
    ensures Without(s, x) == s
  {
    if s != [] {
      WithoutAbsent(s[1..], x);
      assert s == [s[0]] + s[1..];
    }
  }

  /** The registry of test_print_all_addresses: two houses stored one after the other. */
  method TestRegistry() returns (registry: Registry<real>)
    ensures fresh(registry) && registry.Valid()
    ensures registry.order == ["123 Test Street", "456 Sample Road"]
  {
    registry := new Registry<real>();
    var first := registry.NewHouse("123 Test Street", -120.0, 35.0, 10.0, 5.0, 3.0, 4.0, 10.0);
    assert "456 Sample Road" !in registry.instances by {
      assert "456 Sample Road"[0] != "123 Test Street"[0];
    }
    var second := registry.NewHouse("456 Sample Road", -118.0, 34.0, 20.0, 6.0, 2.0, 3.0, 8.0);
  }

  /** test_print_all_addresses: both stored addresses are printed. */
  method PrintAllAddressesOfTestRegistry() returns (out: seq<string>)
    ensures out == ["Addresses of all houses:", "123 Test Street", "456 Sample Road"]
  {
    var registry := TestRegistry();
    out := registry.PrintAllAddresses();
  }
}
