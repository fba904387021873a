/** The DS18B20 sensor front end: a catalogue of temperature-sensor names that
    is rebuilt from the bus master's enumeration, and a reading pass over it. */
module DS18B20Sensor {
  import opened Catalogue

  class Sensor {
    /** The catalogued device names, in discovery order. */
    var devices: seq<string>

    /** A new front end has catalogued nothing. */
    constructor ()
      ensures devices == []
    {
      devices := [];
    }

    /** Clears the catalogue, then appends every enumerated name that carries
        the family code, in enumeration order. `bus` is the list of sensor
        names the bus master enumerates. */
    method GetDevices(bus: seq<string>)
      modifies this
      ensures devices == Filter(bus)
      ensures forall x :: x in devices <==> x in bus && IsFamilyName(x)
    {
      devices := [];
      var i := 0;
      while i < |bus|
        invariant 0 <= i <= |bus|
        invariant devices == Filter(bus[..i])
      {
        assert bus[..i + 1][..i] == bus[..i];
        if IsFamilyName(bus[i]) {
          devices := devices + [bus[i]];
        }
        i := i + 1;
      }
      assert bus[..|bus|] == bus;
      forall x ensures x in devices <==> x in bus && IsFamilyName(x) {
        FilterMembership(bus, x);
      }
    }

    /** One record per catalogued device, in catalogue order, pairing its name
        with the value of the read issued for that entry (`read(k, name)` for
        the k-th entry). The catalogue is not changed. */
    method GetTemperatures<T>(read: (nat, string) -> T) returns (r: seq<SensorData<T>>)
      ensures r == Readings(devices, read)
    {
      r := [];
      var i := 0;
      while i < |devices|
        invariant 0 <= i <= |devices|
        invariant r == Readings(devices[..i], read)
      {
        assert devices[..i + 1][..i] == devices[..i];
        r := r + [SensorData(devices[i], read(i, devices[i]))];
        i := i + 1;
      }
      assert devices[..|devices|] == devices;
    }
  }
}
