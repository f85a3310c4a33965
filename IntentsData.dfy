/** The intent training corpus `INTENT_TRAINING_DATA`
    (`src/persistence/db_setup/data/intents_data.py`): twenty questions about
    the database, labelled `"sql"`, followed by sixty-eight questions about
    the product documentation, labelled `"docs"`. */
module IntentsData {
  import opened Records

  /** The `i`-th text labelled `"sql"`, in file order; the default arm is the
      twentieth and last text. */
  function SqlText(i: nat): string
    requires i < 20
  {
    match i
    case 0 => "¿Cuántos usuarios hay registrados?"
    case 1 => "Lista de usuarios con sus correos"
    case 2 => "Mostrar la fecha de creación de los últimos usuarios"
    case 3 => "Quiero ver los nombres de todos los usuarios"
    case 4 => "¿Cuál es el correo del usuario con id 5?"
    case 5 => "¿Qué camiones están registrados en el sistema?"
    case 6 => "Dame la capacidad del camión con placa ABC123"
    case 7 => "Mostrar todos los modelos de camiones"
    case 8 => "¿Cuántos camiones hay disponibles?"
    case 9 => "Ver la fecha de registro del último camión agregado"
    case 10 => "Listar todos los paquetes pendientes"
    case 11 => "¿Qué paquetes tiene asignados el camión 2?"
    case 12 => "Ver el estado del paquete con número de seguimiento 123456"
    case 13 => "Mostrar los destinos de los últimos 10 paquetes"
    case 14 => "¿Qué usuario creó el paquete con id 15?"
    case 15 => "Historial de estados del paquete 98765"
    case 16 => "¿En qué ubicación estuvo el paquete con seguimiento 111222?"
    case 17 => "Mostrar todas las actualizaciones recientes de seguimiento"
    case 18 => "Lista de paquetes que cambiaron de estado hoy"
    case _ => "Última actualización del paquete 2024"
  }

  /** The `i`-th text labelled `"docs"`, in file order; the default arm is the
      sixty-eighth and last text. */
  function DocsText(i: nat): string
    requires i < 68
  {
    match i
    case 0 => "¿Cómo configuro la aplicación por primera vez?"
    case 1 => "¿Cuál es la configuración recomendada para que la app funcione mejor?"
    case 2 => "¿Cómo desactivo la optimización de batería para Wis Tracking?"
    case 3 => "¿Qué permisos debo otorgar en la configuración inicial?"
    case 4 => "¿Cuáles son los pasos para asociar un dispositivo móvil?"
    case 5 => "¿Cómo inicio sesión en la aplicación?"
    case 6 => "¿Cómo acceder a los viajes disponibles en la app?"
    case 7 => "¿Qué información aparece en la pantalla de un viaje?"
    case 8 => "¿Qué modos de trabajo ofrece la app durante un viaje?"
    case 9 => "¿Cómo cambiar el orden de visitas en un viaje?"
    case 10 => "¿Qué pasa si quiero cancelar una visita?"
    case 11 => "¿Cuál es la diferencia entre confirmación automática y manual de llegada?"
    case 12 => "¿Qué ocurre si confirmo la llegada fuera del radio permitido?"
    case 13 => "¿Qué restricciones existen para cancelar visitas?"
    case 14 => "¿Cómo volver a una visita ya realizada o cancelada?"
    case 15 => "¿Cómo registrar la entrega de objetos en la app?"
    case 16 => "¿Cómo usar el escáner para registrar entregas?"
    case 17 => "¿Qué hacer si recibo un objeto no esperado?"
    case 18 => "¿Cómo puedo agregar comentarios a una visita?"
    case 19 => "¿Cómo restaurar objetos procesados en una visita?"
    case 20 => "¿Cómo sacar una fotografía en una visita?"
    case 21 => "¿Cómo firmar digitalmente al entregar o recibir un objeto?"
    case 22 => "¿Qué condición debo cumplir para finalizar un viaje?"
    case 23 => "¿Qué ocurre con las visitas pendientes al cerrar un viaje?"
    case 24 => "¿Cómo es el comportamiento posterior a la finalización del viaje?"
    case 25 => "¿Cómo se sincronizan los datos de los dispositivos móviles?"
    case 26 => "¿Qué notificaciones envía el sistema al registrar visitas?"
    case 27 => "¿Cómo se registra la ubicación del dispositivo?"
    case 28 => "¿Cómo registrar un nuevo usuario desde el panel web?"
    case 29 => "¿Qué políticas de seguridad existen para las contraseñas?"
    case 30 => "¿Cómo recuperar o cambiar mi contraseña?"
    case 31 => "¿Qué hacer si mi cuenta fue bloqueada por intentos fallidos?"
    case 32 => "¿Qué información muestran los indicadores de acciones realizadas?"
    case 33 => "¿Dónde veo los objetos entregados o recepcionados por día?"
    case 34 => "¿Qué son los accesos rápidos en la pantalla principal?"
    case 35 => "¿Cómo revisar los indicadores del día?"
    case 36 => "¿Qué representa el indicador de geolocalización de puntos de entrega?"
    case 37 => "¿Cómo gestionar los motivos desde el panel web?"
    case 38 => "¿Cómo crear un nuevo motivo en Wis Tracking?"
    case 39 => "¿Cómo editar un motivo existente?"
    case 40 => "¿Cómo vincular un dispositivo móvil al sistema desde el panel?"
    case 41 => "¿Dónde consulto y edito los puntos de entrega?"
    case 42 => "¿Cómo funciona la geolocalización manual y automática de un punto?"
    case 43 => "¿Qué significa el estado de geolocalización de un punto de entrega?"
    case 44 => "¿Cómo consultar los clientes asociados a un punto de entrega?"
    case 45 => "¿Cómo crear o editar un objeto en el sistema?"
    case 46 => "¿Cómo anular un objeto pendiente?"
    case 47 => "¿Cómo generar una etiqueta de recepción desde el panel?"
    case 48 => "¿Qué significa la trazabilidad de un objeto?"
    case 49 => "¿Cómo consultar los vehículos registrados?"
    case 50 => "¿Cómo crear o editar un vehículo?"
    case 51 => "¿Cómo crear o editar tipos de vehículo?"
    case 52 => "¿Cómo administrar zonas en Wis Tracking?"
    case 53 => "¿Dónde consultar las tareas activas?"
    case 54 => "¿Cómo cancelar una tarea activa?"
    case 55 => "¿Cómo ver el detalle de un viaje?"
    case 56 => "¿Dónde encuentro las fotos y firmas registradas?"
    case 57 => "¿Cómo exportar un reporte de viajes?"
    case 58 => "¿Cómo revisar el resumen de viajes realizados?"
    case 59 => "¿Qué muestra el panel de viajes activos?"
    case 60 => "¿Cómo funciona el panel de visualización de viajes?"
    case 61 => "¿Cómo hacer el seguimiento de viajes en tiempo real?"
    case 62 => "¿Cómo administrar perfiles en el sistema?"
    case 63 => "¿Cómo gestionar usuarios desde el panel web?"
    case 64 => "¿Cómo configurar las grillas de datos?"
    case 65 => "¿Cómo reorganizar o filtrar columnas en una grilla?"
    case 66 => "¿Cómo guardar y aplicar filtros?"
    case _ => "¿Cómo exportar datos desde las grillas?"
  }

  /** The texts labelled `"sql"`, in file order. */
  const SqlTexts: seq<string> := seq(20, i requires 0 <= i < 20 => SqlText(i))

  /** The texts labelled `"docs"`, in file order. */
  const DocsTexts: seq<string> := seq(68, i requires 0 <= i < 68 => DocsText(i))

  /** The entries `{"text": t, "intent": intent}` for the texts `ts`. */
  function Tagged(ts: seq<string>, intent: string): (r: seq<Example>)
    ensures |r| == |ts|
    ensures forall i :: 0 <= i < |ts| ==> r[i] == Example(ts[i], intent)
  {
    seq(|ts|, i requires 0 <= i < |ts| => Example(ts[i], intent))
  }

  /** `INTENT_TRAINING_DATA`, in file order. */
  const TrainingData: seq<Example> := Tagged(SqlTexts, "sql") + Tagged(DocsTexts, "docs")

  /** Eighty-eight examples; the first twenty are the `"sql"` ones, and every
      label is `"sql"` or `"docs"`: no example is stored under `"ambiguo"`. */
  lemma TrainingDataShape()
    ensures |TrainingData| == 88
    ensures forall i :: 0 <= i < |TrainingData| ==>
      (TrainingData[i].intent == "sql" <==> i < 20) &&
      (TrainingData[i].intent == "sql" || TrainingData[i].intent == "docs")
    ensures forall i :: 0 <= i < |TrainingData| ==> TrainingData[i].intent != "ambiguo"
  {
    assert |SqlTexts| == 20 && |DocsTexts| == 68;
    forall i | 0 <= i < |TrainingData|
      ensures (TrainingData[i].intent == "sql" <==> i < 20)
      ensures TrainingData[i].intent == "sql" || TrainingData[i].intent == "docs"
    {
      if i >= 20 {
        assert TrainingData[i] == Tagged(DocsTexts, "docs")[i - 20];
        assert "docs" != "sql";
      }
    }
  }
}
