# DS18B20 sensor catalogue

A model of the device catalogue at the heart of `DS18B20_Sensor`, a Raspberry Pi
program that reads DS18B20 temperature sensors on a 1-Wire bus through Pi4J.
The program keeps a list of catalogued devices. `getDevices` rebuilds that
list from what the 1-Wire bus master enumerates, keeping the names that contain
the DS18B20 family code `"28-"`. `getTemperatures` turns the list, in order,
into `SensorData` records of name and reading.

- `catalogue.dfy`, module `Catalogue`: the specification. It holds the substring
  test (`Contains`, `IsFamilyName`), the `SensorData` record, the rebuilt
  catalogue as a function of the enumeration (`Filter`), the records of one
  reading pass (`Readings`), and the lemmas about them.
- `ds18b20_sensor.dfy`, module `DS18B20Sensor`: class `Sensor` with the
  `devices` field. `GetDevices` and `GetTemperatures` are the source's two
  loops, proved against `Filter` and `Readings`.

The bus master is abstracted. Its enumeration of temperature sensors becomes the
`bus: seq<string>` argument of `GetDevices`, holding the devices' names. A device
is identified by its name, as its sysfs directory is. The Celsius reading
becomes the `read: (nat, string) -> T` argument of `GetTemperatures`:
`read(k, name)` is the value returned by the read issued for the k-th catalogue entry.
The source reads every entry separately, so two entries with the same name may get
different values. The model only passes the value through.

The model keeps these features of the code:
- duplicate names are kept, not deduplicated;
- `"28-"` may occur anywhere in the name;
- no device is skipped when its read fails, because the code does not catch
  the failure;
- the record holds only the name and the Celsius value, because Fahrenheit is
  computed only when printing;
- there is no configurable polling loop.

## Model

| member | source | states |
|---|---|---|
| Catalogue.Filter | DS18B20_Sensor.java:46-57 | every catalogued name carries the family code and was enumerated; the catalogue is never longer than the enumeration |
| Catalogue.Readings | DS18B20_Sensor.java:66-76 | exactly one record per catalogue entry; record k names entry k and holds the value of the read issued for entry k |
| Catalogue.FilterMembership | DS18B20_Sensor.java:49-52 | a name is in the rebuilt catalogue if and only if it was enumerated and contains "28-" |
| Catalogue.FilterMultiplicity | DS18B20_Sensor.java:49-51 | no deduplication: a family name occurs in the catalogue exactly as often as it was enumerated; other names never occur |
| Catalogue.FilterPositions | DS18B20_Sensor.java:49-51 | the catalogue is the enumeration read at strictly increasing positions that include every matching position, so enumeration order is kept |
| Catalogue.FilterAppend | DS18B20_Sensor.java:49-53 | rebuilding from two consecutive stretches of the enumeration gives the two stretches' catalogues one after the other |
| Catalogue.ReadingsNames | DS18B20_Sensor.java:70-72 | the names carried by the records are the catalogue itself, in order |
| Catalogue.RefreshThenRead | DS18B20_Sensor.java:90-94 | after a rebuild, a reading pass gives one record per enumerated family name, in enumeration order; it gives no records exactly when no enumerated name contains "28-" |
| Catalogue.FamilyNameChars | DS18B20_Sensor.java:50 | a name passes the test if and only if the characters '2', '8', '-' stand next to each other at some offset |
| Catalogue.FamilyCodeAnywhere | DS18B20_Sensor.java:50 | any text, then "28-", then any text passes the test: it is a substring test, not a prefix test |
| Catalogue.FamilyNameSplits | DS18B20_Sensor.java:50 | every name that passes the test is some text, then "28-", then some text |
| DS18B20Sensor.Sensor.constructor | DS18B20_Sensor.java:20 | a new front end starts with an empty catalogue |
| DS18B20Sensor.Sensor.GetDevices | DS18B20_Sensor.java:46-57 | the new catalogue is the order-preserving filter of the enumeration and never depends on the previous catalogue; membership holds if and only if the name was enumerated and contains "28-" |
| DS18B20Sensor.Sensor.GetTemperatures | DS18B20_Sensor.java:66-76 | the records are the catalogue's readings in catalogue order, one read per entry; the catalogue is not modified |

## Left out

- The Pi4J bus master (`W1Master`), its enumeration of temperature-sensor devices and the sysfs reads behind `getTemperature`. These are foreign calls, and their results are taken as the `bus` and `read` arguments.
- The selection of devices by Java class (`TemperatureSensor.class`) happens inside the bus master, so the `bus` argument already holds only those devices.
- Temperatures are double-precision values. The model leaves their type open and only passes them through.
- The Fahrenheit conversion with rounding to one decimal is display formatting inside `main` and is not modelled.
- `main` is not modelled. It runs a fixed five-pass demonstration loop with console output, 60-second sleeps and a swallowed interruption, which are all I/O and timing.
- A failing sensor read raises an exception that the code does not handle. The model's `read` is total, so it has no failing read.
- DS18B20Sensor.Sensor.GetTemperatures returns the records as a sequence. The source copies its working list into a fresh Java array (`toArray`), and that copy is not modelled.
