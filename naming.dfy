/**
 * The file names of the telemetry export: one table file per device,
 * `<start date>_<end date>_<device id>.<format>`, and one metadata file,
 * `<start date>_<end date>_metadata.json`.
 */
module Naming {

  /** The output formats the command accepts. */
  datatype Format = Csv | Parquet

  function Extension(format: Format): (ext: string)
    ensures ext == "csv" || ext == "parquet"
  {
    match format
    case Csv => "csv"
    case Parquet => "parquet"
  }

  /** The table file of one device. */
  function OutputFile(startDate: string, endDate: string, deviceId: string, format: Format): string
  {
    startDate + "_" + endDate + "_" + deviceId + "." + Extension(format)
  }

  /** The metadata file of the run. */
  function MetaFile(startDate: string, endDate: string): string
  {
    startDate + "_" + endDate + "_metadata.json"
  }

  /** The shared prefix of a run's file names. */
  function RangePrefix(startDate: string, endDate: string): string
  {
    startDate + "_" + endDate + "_"
  }

  /** Both kinds of file name start with the date range and end with their extension. */
  lemma {:induction false} FileNameShape(startDate: string, endDate: string, deviceId: string, format: Format)
    ensures var f := OutputFile(startDate, endDate, deviceId, format);
      var p := RangePrefix(startDate, endDate);
      var x := "." + Extension(format);
      && |f| == |p| + |deviceId| + |x|
      && f[..|p|] == p && f[|p|..|p| + |deviceId|] == deviceId && f[|p| + |deviceId|..] == x
    ensures var m := MetaFile(startDate, endDate);
      var p := RangePrefix(startDate, endDate);
      |m| == |p| + 13 && m[..|p|] == p && m[|p|..] == "metadata.json"
  {
    var p := RangePrefix(startDate, endDate);
    var x := "." + Extension(format);
    assert OutputFile(startDate, endDate, deviceId, format) == p + deviceId + x;
    assert MetaFile(startDate, endDate) == p + "metadata.json";
  }

  /** Within one run and format, distinct devices get distinct table files. */
  lemma {:induction false} OutputFileInjective(startDate: string, endDate: string, id1: string, id2: string, format: Format)
    requires OutputFile(startDate, endDate, id1, format) == OutputFile(startDate, endDate, id2, format)
    ensures id1 == id2
  {
    FileNameShape(startDate, endDate, id1, format);
    FileNameShape(startDate, endDate, id2, format);
  }

  /** No device's table file is the run's metadata file. */
  lemma {:induction false} MetaFileDistinct(startDate: string, endDate: string, deviceId: string, format: Format)
    ensures MetaFile(startDate, endDate) != OutputFile(startDate, endDate, deviceId, format)
  {
    var m := MetaFile(startDate, endDate);
    var f := OutputFile(startDate, endDate, deviceId, format);
    var ext := Extension(format);
    assert m[|m| - 1] == 'n';
    assert f[|f| - 1] == ext[|ext| - 1];
  }
}
