# WeatherService ETL and download scripts — a verified Dafny model

This project models the logic at the centre of the two Python scripts in
`WeatherServiceAnalysis/`. The I/O around that logic is abstracted away.

- **`store-weather-data.py`**, the ETL. It reads ERA5-Land NetCDF files in
  one-week time chunks and upserts one document per grid point and hour
  into MongoDB. The model covers:
  - the quick header check (`_is_probably_netcdf`);
  - the chunk loop of `process_netcdf_file`, with its window arithmetic and
    record counting;
  - `prepare_bulk_operations`, which turns a DataFrame into `UpdateOne`
    upserts keyed on the unique index;
  - the configuration precedence for the MongoDB settings;
  - the masking of credentials in the logged connection URI.
- **`mongodb-download-datasets.py`**, the downloader. It requests one month
  of ERA5-Land data at a time from the CDS API. The model covers:
  - the month list and the zero-padded day list of a month;
  - the per-month output file name;
  - the same header check;
  - the retry loop: at most three attempts, a back-off of `5 * attempts`
    seconds, and a rename to `.invalid` after a third bad file;
  - the loop over the months of the year.

Modules, one per concern:

| module | file | what it holds |
|---|---|---|
| `Wrappers` | `wrappers.dfy` | `Option`, used for Python exceptions and `None` |
| `Text` | `text.dfy` | decimal formatting, `f"{n:02d}"`, `int(s)` on digit strings |
| `MagicBytes` | `magic_bytes.dfy` | the NetCDF/HDF5 header check |
| `MongoSettings` | `settings.dfy` | the `or`-chained settings, `split('@')[-1]` masking |
| `BulkOperations` | `bulk_operations.dfy` | records, operations, `prepare_bulk_operations` |
| `TimeChunks` | `time_chunks.dfy` | chunk windows and the chunk loop |
| `Calendar` | `calendar.dfy` | `calendar.monthrange`, `_days_for_month`, `months` |
| `Downloader` | `downloader.dfy` | requests, file names, the retry loop, the month loop |

How effects are modelled:
- The loops are methods whose results are tied to specification functions.
- The effects they cannot perform are inputs or outputs:
  - what `client.retrieve` did on each attempt is a function of the attempt number;
  - what loading a chunk gave is a function of the window;
  - the environment and the parsed `appsettings.json` are values.
- `time.sleep`, `os.replace` and `client.retrieve` are recorded as `Action`s in a trace.

Configuration precedence is "first non-empty" only for the two environment
variables. The last step is `cfg.get(...).get(key, DEFAULT)`, which falls
back only when the key is *missing*: an entry present in appsettings.json
wins over the default even when it is the empty string. The model follows
the code (`MongoSettings.EmptyConfigEntryBeatsDefault`).

## Model

| member | source | states |
|---|---|---|
| MagicBytes.IsProbablyNetcdf | WeatherServiceAnalysis/store-weather-data.py:75-89 | true exactly when the file could be read and starts with the bytes "CDF" or with the 8-byte HDF5 signature; a read failure gives false |
| MagicBytes.ReadHead | WeatherServiceAnalysis/store-weather-data.py:78-79 | `f.read(8)` yields a prefix of the file: the whole file when it is shorter than 8 bytes, else its first 8 bytes |
| MagicBytes.OnlyHeaderMatters | WeatherServiceAnalysis/store-weather-data.py:79-85 | bytes after the first eight never change the verdict |
| MagicBytes.ClassicAndHdf5Exclusive | WeatherServiceAnalysis/store-weather-data.py:80-85 | no file matches both signatures |
| MagicBytes.ShortFileOnlyClassic | WeatherServiceAnalysis/store-weather-data.py:79-86 | a file shorter than 8 bytes passes only as NetCDF classic |
| Downloader.HeaderCheck | WeatherServiceAnalysis/mongodb-download-datasets.py:25-35 | the downloader's copy gives the same verdict as the ETL's on every file and on a read failure |
| TimeChunks.ChunkCount | WeatherServiceAnalysis/store-weather-data.py:211 | `total_chunks` is the ceiling of `total_steps / 168`, and 0 exactly when there are no steps |
| TimeChunks.WindowsShape | WeatherServiceAnalysis/store-weather-data.py:216-219 | the loop visits `total_chunks` windows; window k is numbered k+1 and spans `[168k, min(168k+168, total_steps))` |
| TimeChunks.WindowsBounded | WeatherServiceAnalysis/store-weather-data.py:216-219 | every window is non-empty, at most 168 steps, inside the series, numbered by position; the first starts at 0, the last ends at `total_steps` with number `total_chunks` |
| TimeChunks.WindowsContiguous | WeatherServiceAnalysis/store-weather-data.py:216-219 | each window ends where the next begins |
| TimeChunks.WindowsCover | WeatherServiceAnalysis/store-weather-data.py:216-219 | a step lies in some window exactly when it is below `total_steps` |
| TimeChunks.WindowsDisjoint | WeatherServiceAnalysis/store-weather-data.py:216-219 | no step lies in two windows |
| TimeChunks.ProcessChunk | WeatherServiceAnalysis/store-weather-data.py:222-293 | a failed or empty chunk counts 0 and writes nothing; otherwise it counts its rows and writes its operations as one batch, or nothing when there are none; a batch is non-empty and no longer than the row count |
| TimeChunks.ProcessChunks | WeatherServiceAnalysis/store-weather-data.py:209-293 | the loop visits exactly the windows above in order; `processed_records_in_file` is the sum of the row counts of loaded chunks; the batches written are those of the chunks that produced operations, in order |
| TimeChunks.OpsBoundedByRecords | WeatherServiceAnalysis/store-weather-data.py:264-278 | across the file, no more operations are written than records are counted |
| TimeChunks.OnlyLoadedChunksCount | WeatherServiceAnalysis/store-weather-data.py:264-266 | when every chunk failed or was empty, nothing is counted and nothing is written |
| BulkOperations.IndexFieldNames | WeatherServiceAnalysis/store-weather-data.py:123-124 | the unique index is over exactly `timestamp`, `latitude` and `longitude` |
| BulkOperations.FilterFieldsAreIndexFields | WeatherServiceAnalysis/store-weather-data.py:346-350 | the filter of every operation built for a row holds exactly the fields of the unique index of lines 123-124 |
| BulkOperations.TimeColumn | WeatherServiceAnalysis/store-weather-data.py:318 | the time column is "valid_time" exactly when the frame has it, otherwise "time" |
| BulkOperations.ToDatetime | WeatherServiceAnalysis/store-weather-data.py:328 | a cell converts exactly when it is a datetime, and then to that instant |
| BulkOperations.IsNan | WeatherServiceAnalysis/store-weather-data.py:340 | `np.isnan` answers for numbers only, true exactly for NaN |
| BulkOperations.AllWeatherNan | WeatherServiceAnalysis/store-weather-data.py:340 | the short-circuit `and`: a first reading that is a number other than NaN gives false without looking further; a non-number reached raises; true exactly when all three readings are NaN |
| BulkOperations.RoundHalfEven | WeatherServiceAnalysis/store-weather-data.py:363 | `round` gives an integer within 0.5 of its argument, the even one on a tie |
| BulkOperations.RealOrNull | WeatherServiceAnalysis/store-weather-data.py:359-361 | a reading converts exactly when it is a number: NaN becomes null, any other number stays that number |
| BulkOperations.RoundedOrNull | WeatherServiceAnalysis/store-weather-data.py:363 | a wind direction converts exactly when it is a number: NaN becomes null, any other number becomes it rounded half to even |
| BulkOperations.OperationFor | WeatherServiceAnalysis/store-weather-data.py:325-381 | a record yields an operation exactly when it is `Eligible` (all keys present, datetime time, numeric non-NaN coordinates, numeric readings, not all NaN), and that operation `Describes` the record |
| BulkOperations.BuildOp | WeatherServiceAnalysis/store-weather-data.py:346-376 | the filter holds exactly timestamp, latitude and longitude; `$set` repeats them, adds the three readings and the units "C", "m/s", "degrees"; upsert is true |
| BulkOperations.PreparedOperations | WeatherServiceAnalysis/store-weather-data.py:311-383 | never more operations than records |
| BulkOperations.PreparedOperationsInOrder | WeatherServiceAnalysis/store-weather-data.py:325-383 | with the required columns present, the operations are exactly those of the eligible records, one each, in input order |
| BulkOperations.PrepareBulkOperations | WeatherServiceAnalysis/store-weather-data.py:311-383 | the loop returns `PreparedOperations(df)`: empty when a required column is missing, never longer than the input |
| MongoSettings.GetEnv | WeatherServiceAnalysis/store-weather-data.py:43-44 | `os.getenv` is `None` exactly for an unset variable, and the variable's value when it is set |
| MongoSettings.DictGet | WeatherServiceAnalysis/store-weather-data.py:45 | `.get` succeeds exactly on a dict, giving the entry when the key is present and the default otherwise |
| MongoSettings.ConfigLookup | WeatherServiceAnalysis/store-weather-data.py:45 | a configuration that is not a dict raises; a first key missing gives the default, however long the chain; a single key present gives its entry |
| MongoSettings.ConfigLookupTwoKeys | WeatherServiceAnalysis/store-weather-data.py:45 | `cfg.get(k1, {}).get(k2, default)` raises exactly when `cfg` or the entry under `k1` is not a dict; otherwise it is the entry under `k2` when both keys are present and the default when either is missing |
| MongoSettings.ConfigLookupThreeKeys | WeatherServiceAnalysis/store-weather-data.py:55 | the same for three keys: it raises exactly when a level that is reached is not a dict, gives the innermost entry when every key is present and the default when any key is missing |
| MongoSettings.Setting | WeatherServiceAnalysis/store-weather-data.py:42-56 | a non-empty primary variable wins; else a non-empty legacy variable; else the appsettings lookup with its default |
| MongoSettings.MongoUri | WeatherServiceAnalysis/store-weather-data.py:42-46 | `MONGODB_URI` if set and non-empty, else `MONGO_URI` if set and non-empty, else `MongoDb.ConnectionUri` from appsettings, else `mongodb://localhost:27017/`; a non-dict configuration raises |
| MongoSettings.DbName | WeatherServiceAnalysis/store-weather-data.py:47-51 | `MONGODB_DB`, else `MONGO_DB_NAME`, else `MongoDb.DatabaseName`, else `WeatherDb`, with the same rules |
| MongoSettings.CollectionName | WeatherServiceAnalysis/store-weather-data.py:52-56 | `MONGODB_COLLECTION`, else `MONGO_COLLECTION_NAME`, else `MongoDb.Collections.Forecasts`, else `Forecasts`, with the same rules |
| MongoSettings.OrChain | WeatherServiceAnalysis/store-weather-data.py:42-46 | Python's `or` gives the first truthy operand, or the last one when none is truthy |
| MongoSettings.SettingIsOrChain | WeatherServiceAnalysis/store-weather-data.py:42-56 | with a well-shaped configuration, each setting is the `or` of its two variables and its configuration entry |
| MongoSettings.SettingFailsOnlyOnBadConfig | WeatherServiceAnalysis/store-weather-data.py:42-56 | loading a setting fails only when both variables are unset or empty and the configuration is not nested dicts |
| MongoSettings.DefaultsWithoutConfiguration | WeatherServiceAnalysis/store-weather-data.py:22-24 | with no variables and an empty configuration the three defaults are used |
| MongoSettings.EmptyConfigEntryBeatsDefault | WeatherServiceAnalysis/store-weather-data.py:45 | an empty-string appsettings entry is taken over the default |
| MongoSettings.Split | WeatherServiceAnalysis/store-weather-data.py:104 | `split` always yields at least one part |
| MongoSettings.SplitPartsAvoidSep | WeatherServiceAnalysis/store-weather-data.py:104 | no part of a split contains the separator |
| MongoSettings.JoinSplit | WeatherServiceAnalysis/store-weather-data.py:104 | joining the parts with the separator gives back the string |
| MongoSettings.MaskUri | WeatherServiceAnalysis/store-weather-data.py:104 | the masked URI contains no '@' |
| MongoSettings.LastPartIsSuffix | WeatherServiceAnalysis/store-weather-data.py:104 | the last part is a suffix of the string, preceded by the separator unless it is the whole string |
| MongoSettings.MaskUriIsTextAfterLastAt | WeatherServiceAnalysis/store-weather-data.py:104 | the masked URI is the text after the last '@': a suffix that is the whole URI or follows an '@' |
| MongoSettings.LoggedUri | WeatherServiceAnalysis/store-weather-data.py:424-425 | the logged URI contains no '@' and ends with the masked URI |
| Text.Decimal | WeatherServiceAnalysis/mongodb-download-datasets.py:58 | `str(n)` is a non-empty digit string, one digit exactly below 10, no leading zero otherwise |
| Text.DecimalValue | WeatherServiceAnalysis/mongodb-download-datasets.py:58 | the digits of `str(n)` read back as n |
| Text.Pad2 | WeatherServiceAnalysis/mongodb-download-datasets.py:18 | `f"{n:02d}"` is a digit string, of length 2 exactly when n < 100 |
| Text.ParseNat | WeatherServiceAnalysis/mongodb-download-datasets.py:21 | `int(s)` on unsigned digits succeeds exactly on non-empty digit strings |
| Text.ParsePad2 | WeatherServiceAnalysis/mongodb-download-datasets.py:21-23 | `int(f"{n:02d}") == n` |
| Text.Pad2Injective | WeatherServiceAnalysis/mongodb-download-datasets.py:18 | different numbers have different padded forms |
| Calendar.DaysInMonth | WeatherServiceAnalysis/mongodb-download-datasets.py:22 | 31 days exactly for months 1, 3, 5, 7, 8, 10, 12; 30 exactly for 4, 6, 9, 11; February has 29 in a Gregorian leap year, else 28 |
| Calendar.YearLength | WeatherServiceAnalysis/mongodb-download-datasets.py:22 | the month lengths add up to 365, or 366 in a leap year |
| Calendar.DaysForMonth | WeatherServiceAnalysis/mongodb-download-datasets.py:20-23 | the day list exists exactly when the month string is a number from 1 to 12 |
| Calendar.DaysForMonthSpec | WeatherServiceAnalysis/mongodb-download-datasets.py:20-23 | the list has one entry per day of the month; entry i is two digits reading i+1, so it starts at "01" and rises by one |
| Calendar.MonthsValue | WeatherServiceAnalysis/mongodb-download-datasets.py:18 | `months` is "01" to "12" in order |
| Calendar.MonthsAreMonths | WeatherServiceAnalysis/mongodb-download-datasets.py:18-22 | every month string reads as its month number and has a day list |
| Downloader.MonthRequest | WeatherServiceAnalysis/mongodb-download-datasets.py:49-69 | the request exists exactly when the day list does, and carries that day list, the month and the year |
| Downloader.PathJoin | WeatherServiceAnalysis/mongodb-download-datasets.py:42 | the joined path ends with the file name |
| Downloader.OutputFilename | WeatherServiceAnalysis/mongodb-download-datasets.py:42 | the output path ends with `era5-land-mexico-{year}-{month}.nc` |
| Downloader.BaseNamesDistinct | WeatherServiceAnalysis/mongodb-download-datasets.py:42 | different month strings of equal length give different file names |
| Downloader.OutputFilenamesDistinct | WeatherServiceAnalysis/mongodb-download-datasets.py:40-42 | no two months of the year write the same file |
| Downloader.AttemptStep | WeatherServiceAnalysis/mongodb-download-datasets.py:46-92 | the third attempt always ends the month |
| Downloader.RunAttempt | WeatherServiceAnalysis/mongodb-download-datasets.py:47-92 | one pass of the loop body performs the actions of `AttemptStep` and ends the month as it says |
| Downloader.DownloadMonth | WeatherServiceAnalysis/mongodb-download-datasets.py:45-92 | the `while attempts < 3` loop produces the trace and the outcome of `RetryFrom(1, ...)` |
| Downloader.RetryStopsAtFirstSuccess | WeatherServiceAnalysis/mongodb-download-datasets.py:45-47 | the month is saved exactly when some attempt succeeds, at the first one; it is given up as invalid exactly when no attempt succeeded and the third one retrieved a file |
| Downloader.RetryCounts | WeatherServiceAnalysis/mongodb-download-datasets.py:78-79 | one `retrieve` per attempt made (none if the request cannot be built); the pauses add up to 5k + … + 5(n−1) seconds for attempts k to n |
| Downloader.RetryPauses | WeatherServiceAnalysis/mongodb-download-datasets.py:77-78 | the pauses, in order, are 5j seconds after each attempt j that is not the last, and none after the last |
| Downloader.RetryTraceShape | WeatherServiceAnalysis/mongodb-download-datasets.py:80-86 | the trace never ends with a pause when the request can be built; a rename to `<name>.invalid` only ever comes last, and exactly when the month was given up with an invalid file |
| Downloader.MonthBounds | WeatherServiceAnalysis/mongodb-download-datasets.py:89-90 | a month makes at most 3 `retrieve` calls and pauses at most 15 seconds |
| Downloader.RetrievesSendRequest | WeatherServiceAnalysis/mongodb-download-datasets.py:49-71 | every `retrieve` of a month sends that month's request to the dataset and targets that month's file |
| Downloader.RunMonth | WeatherServiceAnalysis/mongodb-download-datasets.py:40-92 | one pass of the month loop gives that month's retry trace and outcome |
| Downloader.DownloadYear | WeatherServiceAnalysis/mongodb-download-datasets.py:40-92 | the month loop's trace is the months' retry traces, in order |
| Downloader.MonthRetrievesWellFormed | WeatherServiceAnalysis/mongodb-download-datasets.py:49-71 | every `retrieve` made for a month asks for that month, with its day list, into its file |
| Downloader.YearRetrievesWellFormed | WeatherServiceAnalysis/mongodb-download-datasets.py:40-71 | every `retrieve` of the run asks for one of the months, with that month's day list, into that month's file |
| Downloader.YearBounds | WeatherServiceAnalysis/mongodb-download-datasets.py:40-92 | a run over n months makes at most 3n `retrieve` calls and pauses at most 15n seconds |

## Left out

- MongoDB I/O is not modelled: the connection and ping, index creation and `bulk_write` with its result and error reporting (`store-weather-data.py` lines 93-145 and 385-412). A batch handed to `load_data_to_mongo` is an output of `TimeChunks.ProcessChunks`.
- Dataset I/O is not modelled: opening with xarray (with its engine fallback), Dask chunk loading, `to_dataframe`, `dropna` and `gc.collect`. The effect of selecting, loading and transforming one window is the input `load`, which yields either a failure or the DataFrame after `dropna`.
- The floating-point numerics (Kelvin to Celsius, wind speed, `atan2` wind direction) are not modelled. Readings are `Option<real>`, where `None` is NaN. Infinities are not represented.
- `process_netcdf_file`'s file-level checks are not modelled: that the file exists, is at least 10 KiB, passes the header check and opens (lines 156-204). The header check is `MagicBytes.IsProbablyNetcdf`. `TimeChunks.ProcessChunks` starts from an opened dataset.
- `main` is not modelled: the glob over input files, the per-file loop and `sys.exit` (lines 417-481).
- `BulkOperations.ToDatetime` converts only datetime cells. pandas would also parse strings and numbers as dates; here such records are skipped.
- `Text.ParseNat` accepts only unsigned digit strings. Python's `int` also accepts surrounding whitespace, a sign and underscores.
- The ETL's `logging` calls are not modelled: the progress lines (such as `store-weather-data.py` lines 212 and 220), warnings and errors. They change no state the model tracks.
- The CDS API client, `time.sleep`, `os.replace`, `os.makedirs` and all printing are not performed. `retrieve`, `sleep` and `replace` are recorded as actions in the trace. A failed rename is swallowed, as in the source, and still recorded.
- The output directory is a parameter. The source derives it from the script's own path.
- `mongodb-seed.py` is not part of this model. It has no logic beyond constant request lists.
- The C# forecast service is not part of this model.
