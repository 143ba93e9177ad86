/** Option, shared by every module. */
module Wrappers {
  datatype Option<+T> = None | Some(value: T)
}

/** The values the SAGA adapter works on: parameter definitions, the Python values in the
    `parameters` dictionary, layers as the framework reports them, the opaque framework
    calls, and the exceptions a run can raise. */
module Types {
  import opened Wrappers

  /** `QgsProcessing.TypeRaster` against every other layer type. */
  datatype LayerType = TypeRaster | TypeVectorOrOther

  /** The class of a `QgsProcessingParameter...` definition, as far as the adapter branches on it. */
  datatype Kind =
    | RasterLayer
    | FeatureSource
    | MultipleLayers(layerType: LayerType)
    | Boolean
    | Matrix(headers: seq<string>)
    | Extent
    | Number
    | Enum
    | StringParam
    | FileParam
    | Field
    | RasterDestination
    | VectorDestination
    | OtherDestination
    | OtherKind

  datatype Param = Param(name: string, kind: Kind) {
    /** `param.isDestination()` */
    predicate IsDestination() {
      kind.RasterDestination? || kind.VectorDestination? || kind.OtherDestination?
    }
    /** Destinations whose files get a projection sidecar (`output_layers`, line 272). */
    predicate IsLayerDestination() {
      kind.RasterDestination? || kind.VectorDestination?
    }
  }

  /** A Python value held in the `parameters` dictionary. `PyOther` stands for any value that is
      neither None, a string nor a list (a number, a boolean, a layer object). */
  datatype Value = PyNone | PyStr(s: string) | PyList(items: seq<Value>) | PyOther(tag: int)

  /** `name in parameters and parameters[name] is not None` */
  predicate Supplied(parameters: map<string, Value>, name: string) {
    name in parameters && parameters[name] != PyNone
  }

  datatype Rect = Rect(xMin: real, yMin: real, xMax: real, yMax: real)

  /** A raster layer as `mapLayerFromString` resolves it. */
  datatype Layer = Layer(name: string, bandCount: int, extent: Rect, height: int, width: int)

  /** The grid tuple `(layer.extent(), layer.height(), layer.width())`. */
  datatype Grid = Grid(extent: Rect, height: int, width: int)

  function GridOf(l: Layer): Grid {
    Grid(l.extent, l.height, l.width)
  }

  datatype Reason = MultibandLayer(layerName: string) | GridMismatch | BaseReason(message: string)

  /** The `(ok, message)` pair that `checkParameterValues` returns. */
  datatype Verdict = Verdict(ok: bool, reason: Reason)

  /** The exceptions a run or a check can raise. */
  datatype Error =
    | UnsupportedFormat                 // QgsProcessingException('Unsupported file format')
    | MissingKey(key: string)           // KeyError on a dictionary
    | NotAString(name: string)          // AttributeError: a string method on a value that is not a string
    | NotText                           // TypeError: a list where a string is needed
    | NotAList(name: string)            // AttributeError: .append on an entry that is a string
    | NotIterable(name: string)         // TypeError: iterating a value that is not iterable
    | NoValueAttribute(name: string)    // AttributeError: the definition has no `value` attribute
    | MissingContextArgument            // TypeError: exportRasterLayer called without `context`
    | IncompleteMatrixRow(name: string) // IndexError: matrix values not a multiple of three
    | NoExtentNames                     // AttributeError/IndexError on extentParamNames

  datatype Result<+T> = Ok(value: T) | Err(error: Error)

  /** A text file written by the adapter: its path and the content written. */
  datatype FileWrite = FileWrite(path: string, text: string)

  /** The framework calls the adapter makes, as opaque functions. Each resolves the value a
      parameter has in `parameters` (or a destination's name) the way QGIS does. */
  datatype Framework = Framework(
    asBool: Value -> bool,                  // parameterAsBool
    asDouble: Value -> real,                // parameterAsDouble
    asEnum: Value -> int,                   // parameterAsEnum
    asString: Value -> string,              // parameterAsString
    asFile: Value -> string,                // parameterAsFile
    asMatrix: Value -> seq<string>,         // parameterAsMatrix
    asExtent: Value -> Rect,                // parameterAsExtent
    asLayerList: Value -> Option<seq<Value>>, // parameterAsLayerList
    sourceCrsWkt: Value -> string,          // parameterAsSource(...).sourceCrs(), as its WKT text
    compatiblePath: Value -> string,        // parameterAsCompatibleSourceLayerPath; "" when it fails
    outputLayer: string -> string,          // parameterAsOutputLayer, by destination name
    compatibleFileName: string -> string,   // out.getCompatibleFileName(self), by destination name
    layerName: string -> Option<string>,    // mapLayerFromString(source, context, False).name()
    layerInfo: Value -> Option<Layer>,      // mapLayerFromString(f, context) in the pre-flight check
    tempName: string -> string,             // QgsProcessingUtils.generateTempFilename
    tableFile: string -> string,            // getTempFilename('txt'), for the matrix parameter of that name
    realText: real -> string,               // str(float)
    outputNames: seq<string>,               // the names of outputDefinitions()
    baseCheck: Verdict,                     // SagaAlgorithmBase.checkParameterValues
    editCommands: seq<string> -> seq<string> // the algorithm-specific editCommands hook, or the identity
  )
}
